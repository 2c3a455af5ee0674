/** The expression part of lcode.c as it runs: the functions that change the generator state and an
    expression descriptor in place. Each is proved to do to the state it stands for what the function of
    the same name in ExprGen.dfy does, to keep all code before the expression, and to keep its two patch
    lists exact: the jumps without a target in the code of an expression are those of its lists, each once. */
module CodeGen {
  import opened Wrappers
  import opened LuaOps
  import opened ExprGen
  import opened ExecLemmas
  import opened F = FuncState

  // ----- the jumps of an expression -----

  /** From position `n` on, the jumps that wait for a target are those of `t`, `f` and `p`, each once. */
  ghost predicate Open(a: ICode, t: seq<nat>, f: seq<nat>, p: seq<nat>, n: nat) {
    && n <= |a| && NoDup(t) && NoDup(f) && Apart(t, f) && Apart(p, t) && Apart(p, f)
    && (forall j :: j in t || j in f || j in p ==> n < j < |a| && a[j] == Jmp(Pending))
    && (forall j: nat {:trigger a[j]} :: n <= j < |a| && a[j] == Jmp(Pending) ==> j in t || j in f || j in p)
  }

  function MainJump(k: Kind): seq<nat> {
    if k.VJmp? then [k.pc] else []
  }

  /** The code of a generator and the abstract code it stands for. */
  datatype Image = Image(code: Code, abs: ICode)

  ghost function Now(fs: FuncState): Image
    reads fs
  {
    Image(fs.code, fs.abs.code)
  }

  /** Everything before position `n` stays. */
  ghost predicate Stays(was: Image, now: Image, n: nat) {
    Kept(was.code, now.code, n) && Kept(was.abs, now.abs, n)
  }

  /** Jumps stay as they are, and no other one waits for a target. */
  ghost predicate JumpsStay(was: Image, now: Image) {
    && |was.code| <= |now.code| && |was.abs| <= |now.abs|
    && (forall i: nat {:trigger now.code[i]} :: i < |was.code| && was.code[i].Jmp? ==> now.code[i] == was.code[i])
    && (forall i: nat {:trigger now.abs[i]} :: i < |was.abs| ==> ((now.abs[i] == Jmp(Pending)) == (was.abs[i] == Jmp(Pending))))
    && (forall i: nat {:trigger now.abs[i]} :: |was.abs| <= i < |now.abs| ==> now.abs[i] != Jmp(Pending))
  }

  /** The two lists of a descriptor, with the jumps `p` that wait besides them, in the code from `n` on. */
  ghost predicate Linked(i: Image, t: int, f: int, d: Desc, p: seq<nat>, n: nat) {
    && n <= |i.code| && Threads(i.code, t, d.t) && Threads(i.code, f, d.f)
    && (forall j :: j in p ==> Threads(i.code, j, [j]))
    && Open(i.abs, d.t, d.f, p, n)
  }

  lemma StaysOn(a: Image, b: Image, c: Image, n: nat)
    requires Stays(a, b, n) && Stays(b, c, n)
    ensures Stays(a, c, n)
  {
  }

  lemma AppendedStays(was: Image, now: Image, n: nat)
    requires Appended(was.code, now.code, was.abs, now.abs) && n <= |was.code| && n <= |was.abs|
    ensures JumpsStay(was, now) && Stays(was, now, n)
  {
  }

  /** Changing the register an instruction writes changes no jump. */
  lemma DestStays(was: Image, now: Image, pc: nat, reg: nat, n: nat)
    requires |was.code| == |was.abs| && n <= pc < |was.code| && was.code[pc].NotOp? && was.abs[pc].NotOp?
    requires now.code == was.code[pc := NotOp(reg, was.code[pc].b)] && now.abs == ExprGen.SetDest(was.abs, pc, reg)
    ensures JumpsStay(was, now) && Stays(was, now, n)
  {
  }

  /** `expdesc` */
  class ExpDesc {
    var k: Kind
    var t: int
    var f: int
    ghost var abs: Desc

    constructor (k: Kind)
      requires !k.VJmp? && !k.VReloc?
      ensures this.k == k && t == f == NO_JUMP && abs == ExprGen.ExpDesc(k, [], [])
    {
      this.k, t, f := k, NO_JUMP, NO_JUMP;
      abs := ExprGen.ExpDesc(k, [], []);
    }

    /** A descriptor that no code belongs to: a constant or a register. */
    ghost predicate Settled()
      reads this
    {
      k == abs.k && t == f == NO_JUMP && abs.t == abs.f == [] && !k.VJmp? && !k.VReloc?
    }

    /** The descriptor of an expression whose code starts at `n`. */
    ghost predicate Of(fs: FuncState, n: nat)
      reads this, fs
    {
      && k == abs.k && Linked(Now(fs), t, f, abs, MainJump(k), n)
      && (k.VReloc? ==> n <= k.pc == |fs.abs.code| - 1 && fs.abs.code[k.pc].NotOp?)
    }
  }

  /** What changes no jump changes no list. */
  lemma LinkedStays(was: Image, now: Image, t: int, f: int, d: Desc, p: seq<nat>, n: nat)
    requires Linked(was, t, f, d, p, n) && JumpsStay(was, now)
    ensures Linked(now, t, f, d, p, n)
  {
    forall h, l | Threads(was.code, h, l) ensures Threads(now.code, h, l) {
      ThreadsHead(was.code, h, l);
      ThreadsFrame(was.code, now.code, h, l);
    }
  }

  lemma SameHeads(c: Code, t: int, f: int, s1: seq<nat>, s2: seq<nat>)
    requires Threads(c, t, s1) && Threads(c, f, s2) && Apart(s1, s2)
    ensures (t == f) == (s1 == s2) && (t == f ==> s1 == [] && s2 == [])
  {
    ThreadsHead(c, t, s1);
    ThreadsHead(c, f, s2);
    if s1 != [] { assert s1[0] in s1; }
    if s2 != [] { assert s2[0] in s2; }
  }

  /** A list is done. */
  lemma ListDone(was: Image, now: Image, t: seq<nat>, f: seq<nat>, n: nat, head: int)
    requires Open(was.abs, t, f, [], n) && n <= |was.code| && Threads(was.code, head, t)
    requires Only(was.code, now.code, f) && Only(was.abs, now.abs, f) && Patched(now.abs, f, |f|)
    ensures Open(now.abs, t, [], [], n) && Threads(now.code, head, t) && Stays(was, now, n)
  {
    ThreadsStay(was.code, now.code, head, t, f);
    forall j | j in f ensures now.abs[j] != Jmp(Pending) && n < j { }
    forall j: nat | n <= j < |now.abs| && now.abs[j] == Jmp(Pending) ensures j in t {
      assert j !in f;
    }
  }

  lemma OpenSwap(a: ICode, t: seq<nat>, f: seq<nat>, p: seq<nat>, n: nat)
    requires Open(a, t, f, p, n)
    ensures Open(a, f, t, p, n)
  {
  }

  // ----- putting values in registers -----

  /** `luaK_dischargevars` */
  method DischargeVars(e: ExpDesc, ghost fs: FuncState, ghost n: nat)
    requires e.Of(fs, n)
    modifies e`k, e`abs
    ensures e.abs == ExprGen.DischargeVars(old(e.abs)) && e.Of(fs, n)
  {
    match e.k
    case VLocal(r) =>
      e.k := VNonReloc(r);
      e.abs := e.abs.(k := VNonReloc(r));
    case _ =>
  }

  /** The cases of `discharge2reg` that emit an instruction. */
  method LoadKind(fs: FuncState, k: Kind, reg: nat, ghost d: Desc) returns (r: Res<()>)
    requires fs.Valid() && k == d.k && !k.VReloc? && !k.VJmp? && !k.VLocal?
    modifies fs
    ensures match ExprGen.Discharge2Reg(old(fs.abs), d, reg)
            case Ok(p) => r.Ok? && fs.Valid() && fs.abs == p.0 && p.1 == d.(k := VNonReloc(reg))
            case Fail(x) => r == Fail(x)
    ensures r.Ok? ==> Appended(old(fs.code), fs.code, old(fs.abs).code, fs.abs.code)
  {
    r := Ok(());
    match k
    case VNil => fs.CodeNil(reg);
    case VFalse => fs.Emit(LoadFalse(reg));
    case VTrue => fs.Emit(LoadTrue(reg));
    case VKStr(s) =>
      var idx := fs.AddK(Str(s));
      if idx.Fail? { return Fail(idx.error); }
      fs.CodeK(reg, idx.value);
    case VK(idx) => fs.CodeK(reg, idx);
    case VKFlt(x) => r := fs.CodeFloat(reg, x);
    case VKInt(i) => r := fs.CodeInt(reg, i);
    case VNonReloc(x) => if x != reg { fs.Emit(Move(reg, x)); }
  }

  /** The main value goes to the register. */
  method LoadMain(fs: FuncState, k: Kind, reg: nat, ghost d: Desc, ghost n: nat) returns (r: Res<()>)
    requires fs.Valid() && k == d.k && !k.VJmp? && !k.VLocal? && n <= |fs.code|
    requires k.VReloc? ==> n <= k.pc < |fs.abs.code| && fs.abs.code[k.pc].NotOp?
    modifies fs
    ensures match ExprGen.Discharge2Reg(old(fs.abs), d, reg)
            case Ok(p) => r.Ok? && fs.Valid() && fs.abs == p.0 && p.1 == d.(k := VNonReloc(reg))
            case Fail(x) => r == Fail(x)
    ensures r.Ok? ==> JumpsStay(old(Now(fs)), Now(fs)) && Stays(old(Now(fs)), Now(fs), n)
  {
    hide JumpsStay, Stays, Appended, Shows, Closed;
    if k.VReloc? {
      fs.SetDest(k.pc, reg);
      DestStays(old(Now(fs)), Now(fs), k.pc, reg, n);
      return Ok(());
    } else {
      r := LoadKind(fs, k, reg, d);
      if r.Ok? { AppendedStays(old(Now(fs)), Now(fs), n); }
    }
  }

  /** `discharge2reg` */
  method Discharge2Reg(fs: FuncState, e: ExpDesc, reg: nat, ghost n: nat) returns (r: Res<()>)
    requires fs.Valid() && e.Of(fs, n)
    modifies fs, e
    ensures match ExprGen.Discharge2Reg(old(fs.abs), old(e.abs), reg)
            case Ok(p) => r.Ok? && fs.Valid() && fs.abs == p.0 && e.abs == p.1
            case Fail(x) => r == Fail(x)
    ensures r.Ok? ==> e.Of(fs, n) && Stays(old(Now(fs)), Now(fs), n)
    ensures r.Ok? ==> e.k == if old(e.k.VJmp?) then old(e.k) else VNonReloc(reg)
    ensures r.Ok? ==> e.t == old(e.t) && e.f == old(e.f) && e.abs.t == old(e.abs).t && e.abs.f == old(e.abs).f
  {
    DischargeVars(e, fs, n);
    DischargeTwice(fs.abs, old(e.abs), reg);
    if e.k.VJmp? { return Ok(()); }
    hide Open, Threads, JumpsStay, Stays, Kept, FuncState.Valid, ExprGen.Discharge2Reg;
    r := LoadMain(fs, e.k, reg, e.abs, n);
    if r.Fail? { return; }
    LinkedStays(old(Now(fs)), Now(fs), e.t, e.f, e.abs, [], n);
    e.k := VNonReloc(reg);
    e.abs := e.abs.(k := VNonReloc(reg));
  }

  lemma DischargeTwice(g: Gen, d: Desc, reg: nat)
    ensures ExprGen.Discharge2Reg(g, ExprGen.DischargeVars(d), reg) == ExprGen.Discharge2Reg(g, d, reg)
    ensures d.k.VJmp? ==> ExprGen.Discharge2Reg(g, d, reg) == Ok((g, d)) && ExprGen.DischargeVars(d) == d
  {
  }

  /** `discharge2anyreg` */
  method Discharge2AnyReg(fs: FuncState, e: ExpDesc, ghost n: nat) returns (r: Res<()>)
    requires fs.Valid() && e.Of(fs, n)
    modifies fs, e
    ensures match ExprGen.Discharge2AnyReg(old(fs.abs), old(e.abs))
            case Ok(p) => r.Ok? && fs.Valid() && fs.abs == p.0 && e.abs == p.1
            case Fail(x) => r == Fail(x)
    ensures r.Ok? ==> e.Of(fs, n) && Stays(old(Now(fs)), Now(fs), n)
    ensures r.Ok? ==> e.k.VNonReloc? || (e.k == old(e.k) && e.k.VJmp?)
    ensures r.Ok? ==> e.t == old(e.t) && e.f == old(e.f) && e.abs.t == old(e.abs).t && e.abs.f == old(e.abs).f
  {
    hide Linked, ExprGen.Discharge2Reg, Shows, Closed;
    LinkedSame(Now(fs), e.t, e.f, e.abs, MainJump(e.k), n);
    if e.k.VNonReloc? { return Ok(()); }
    r := fs.ReserveRegs(1);
    if r.Fail? { return; }
    r := Discharge2Reg(fs, e, fs.freereg - 1, n);
  }

  /** The end of `exp2reg`: the two lists get their targets. */
  method PatchExits(fs: FuncState, t: int, f: int, reg: nat, pf: int, pt: int, ghost d: Desc, ghost n: nat)
    returns (r: Res<()>)
    requires fs.Valid() && Linked(Now(fs), t, f, d, [], n)
    modifies fs
    ensures match ExprGen.PatchExits(old(fs.abs), d.t, d.f, reg, pf, pt)
            case Ok(g) => r.Ok? && fs.abs == g
            case Fail(x) => r == Fail(x)
    ensures r.Ok? ==> fs.Valid() && n <= |fs.code| && Open(fs.abs.code, [], [], [], n) && Stays(old(Now(fs)), Now(fs), n)
  {
    hide Open, Stays, Only, Patched, Threads, PatchList, NoDup;
    OpenLists(fs.abs.code, d.t, d.f, n);
    var final := fs.GetLabel();
    r := fs.PatchListAux(f, final, reg, pf, d.f);
    if r.Fail? { return; }
    ListDone(old(Now(fs)), Now(fs), d.t, d.f, n, t);
    label L:
    OpenLists(fs.abs.code, d.t, [], n);
    r := fs.PatchListAux(t, final, reg, pt, d.t);
    if r.Fail? { return; }
    OpenSwap(old@L(fs.abs).code, d.t, [], [], n);
    SingleList(fs.code, NO_JUMP);
    SingleList(old@L(fs.code), NO_JUMP);
    ListDone(old@L(Now(fs)), Now(fs), [], d.t, n, NO_JUMP);
    StaysOn(old(Now(fs)), old@L(Now(fs)), Now(fs), n);
  }

  lemma OpenLists(a: ICode, t: seq<nat>, f: seq<nat>, n: nat)
    requires Open(a, t, f, [], n)
    ensures NoDup(t) && NoDup(f) && Pendings(a, t) && Pendings(a, f)
  {
  }

  /** The part of `exp2reg` for an expression with jumps, its main value in the register or a jump of the lists. */
  method Join(fs: FuncState, t: int, f: int, reg: nat, isTest: bool, ghost d: Desc, ghost n: nat) returns (r: Res<()>)
    requires fs.Valid() && Linked(Now(fs), t, f, d, [], n)
    modifies fs
    ensures match ExprGen.Join(old(fs.abs), d.t, d.f, reg, isTest)
            case Ok(g) => r.Ok? && fs.abs == g
            case Fail(x) => r == Fail(x)
    ensures r.Ok? ==> fs.Valid() && n <= |fs.code| && Open(fs.abs.code, [], [], [], n) && Stays(old(Now(fs)), Now(fs), n)
  {
    hide Open, Stays, Threads, JumpsStay, Appended, Shows, Closed, ExprGen.NeedValue, ExprGen.LoadBools, ExprGen.PatchExits;
    var need := fs.NeedValue(t, d.t);
    if !need { need := fs.NeedValue(f, d.f); }
    if need {
      var bools := fs.LoadBools(reg, isTest);
      if bools.Fail? { return Fail(bools.error); }
      AppendedStays(old(Now(fs)), Now(fs), n);
      LinkedStays(old(Now(fs)), Now(fs), t, f, d, [], n);
      label L:
      r := PatchExits(fs, t, f, reg, bools.value.0, bools.value.1, d, n);
      if r.Ok? { StaysOn(old(Now(fs)), old@L(Now(fs)), Now(fs), n); }
    } else {
      r := PatchExits(fs, t, f, reg, NO_JUMP, NO_JUMP, d, n);
    }
  }

  lemma OpenJoined(a: ICode, t: seq<nat>, f: seq<nat>, p: seq<nat>, n: nat)
    requires Open(a, t, f, p, n) && NoDup(p)
    ensures Open(a, t, f + p, [], n)
  {
    forall j | j in t ensures j !in f + p { assert j !in p; }
    forall i, j | 0 <= i < j < |f + p| ensures (f + p)[i] != (f + p)[j] {
      if i < |f| && j >= |f| { assert p[j - |f|] in p && f[i] in f; }
    }
    forall j: nat | n <= j < |a| && a[j] == Jmp(Pending) ensures j in t || j in f + p { }
  }

  /** Joining a list and the jump that waits besides it. */
  lemma Joined(was: Image, now: Image, t: int, f: int, d: Desc, p: seq<nat>, f': int, n: nat)
    requires Linked(was, t, f, d, p, n) && now.abs == was.abs && |now.code| == |was.code|
    requires forall i: nat {:trigger now.code[i]} :: i < |was.code| && i !in d.f ==> now.code[i] == was.code[i]
    requires Threads(now.code, f', d.f + p) && NoDup(p)
    ensures Linked(now, t, f', d.(f := d.f + p), [], n) && Stays(was, now, n)
  {
    ThreadsFrame(was.code, now.code, t, d.t);
    OpenJoined(was.abs, d.t, d.f, p, n);
  }

  lemma LinkedSame(i: Image, t: int, f: int, d: Desc, p: seq<nat>, n: nat)
    requires Linked(i, t, f, d, p, n)
    ensures Stays(i, i, n)
  {
  }

  /** The main value of a descriptor does not matter to its lists. */
  lemma LinkedKind(i: Image, t: int, f: int, d: Desc, d': Desc, p: seq<nat>, n: nat)
    requires Linked(i, t, f, d, p, n) && d.t == d'.t && d.f == d'.f
    ensures Linked(i, t, f, d', p, n)
  {
    hide Open, Threads;
  }

  lemma SwapLinked(i: Image, t: int, f: int, d: Desc, p: seq<nat>, n: nat)
    requires Linked(i, t, f, d, p, n)
    ensures Linked(i, f, t, ExprGen.ExpDesc(d.k, d.f, d.t), p, n)
  {
  }

  /** The jump as a list. */
  function JumpList(pc: int): seq<nat> {
    if pc < 0 then [] else [pc]
  }

  /** `luaK_concat(fs, &e->t, pc)` */
  method ConcatTrue(fs: FuncState, e: ExpDesc, pc: int, ghost n: nat) returns (r: Res<()>)
    requires fs.Valid() && pc >= NO_JUMP && Linked(Now(fs), e.t, e.f, e.abs, JumpList(pc), n)
    modifies fs, e
    ensures match ExprGen.Concat(old(e.abs).t, JumpList(pc))
            case Ok(t) => r.Ok? && e.abs == old(e.abs).(t := t)
            case Fail(x) => r == Fail(x)
    ensures r.Ok? ==> Linked(Now(fs), e.t, e.f, e.abs, [], n) && fs.abs == old(fs.abs) && fs.Valid()
    ensures r.Ok? ==> e.k == old(e.k) && e.f == old(e.f) && Stays(old(Now(fs)), Now(fs), n)
  {
    ghost var p := JumpList(pc);
    assert pc >= 0 ==> pc in p;
    ListsApart(fs.abs.code, e.abs, p, n);
    ThreadsNone(fs.code);
    hide Open, Stays, Threads, ExprGen.Concat, Shows, NoDup, Apart, Pendings;
    var c := fs.Concat(e.t, pc, e.abs.t, p);
    if c.Fail? { return Fail(c.error); }
    ghost var d := e.abs;
    ConcatIs(d.t, p);
    SwapLinked(old(Now(fs)), old(e.t), e.f, d, p, n);
    ghost var s := ExprGen.ExpDesc(d.k, d.f, d.t);
    Joined(old(Now(fs)), Now(fs), e.f, old(e.t), s, p, c.value, n);
    SwapLinked(Now(fs), e.f, c.value, s.(f := s.f + p), [], n);
    e.t := c.value;
    e.abs := e.abs.(t := e.abs.t + p);
    return Ok(());
  }

  lemma ConcatIs(s1: seq<nat>, s2: seq<nat>)
    ensures ExprGen.Concat(s1, s2).Ok? ==> ExprGen.Concat(s1, s2).value == s1 + s2
  {
  }

  lemma ListsApart(a: ICode, d: Desc, p: seq<nat>, n: nat)
    requires Open(a, d.t, d.f, p, n)
    ensures NoDup(d.t) && NoDup(d.f) && Apart(d.t, p) && Apart(d.f, p) && Apart(d.t, d.f) && Pendings(a, d.t) && Pendings(a, d.f)
    ensures |p| <= 1 ==> NoDup(p)
  {
  }

  /** `exp2reg` */
  method Exp2Reg(fs: FuncState, e: ExpDesc, reg: nat, ghost n: nat) returns (r: Res<()>)
    requires fs.Valid() && e.Of(fs, n)
    modifies fs, e
    ensures match ExprGen.Exp2Reg(old(fs.abs), old(e.abs), reg)
            case Ok(p) => r.Ok? && fs.Valid() && fs.abs == p.0 && e.abs == p.1
            case Fail(x) => r == Fail(x)
    ensures r.Ok? ==> e.Of(fs, n) && e.Settled() && e.k == VNonReloc(reg) && Stays(old(Now(fs)), Now(fs), n)
  {
    hide Open, Stays, Threads, Shows, Closed, ExprGen.Discharge2Reg, ExprGen.Concat, ExprGen.Join, NoDup;
    r := Discharge2Reg(fs, e, reg, n);
    if r.Fail? { return; }
    ghost var g1, d1 := fs.abs, e.abs;
    label L:
    if e.k.VJmp? {
      r := ConcatTrue(fs, e, e.k.pc, n);
      if r.Fail? { return; }
      StaysOn(old(Now(fs)), old@L(Now(fs)), Now(fs), n);
    }
    label M:
    ListsApart(fs.abs.code, e.abs, [], n);
    SameHeads(fs.code, e.t, e.f, e.abs.t, e.abs.f);
    if e.t != e.f {
      r := Join(fs, e.t, e.f, reg, e.k.VJmp?, e.abs, n);
      if r.Fail? { return; }
      StaysOn(old(Now(fs)), old@M(Now(fs)), Now(fs), n);
    }
    e.t, e.f, e.k := NO_JUMP, NO_JUMP, VNonReloc(reg);
    e.abs := ExprGen.ExpDesc(VNonReloc(reg), [], []);
    SingleList(fs.code, NO_JUMP);
    return Ok(());
  }

  /** `freeexp` */
  method FreeExp(fs: FuncState, e: ExpDesc)
    requires fs.Valid() && e.k == e.abs.k
    modifies fs`freereg, fs`abs
    ensures fs.Valid() && fs.abs == ExprGen.FreeExp(old(fs.abs), e.abs) && fs.abs.code == old(fs.abs).code
  {
    if e.k.VNonReloc? { fs.FreeReg(e.k.reg); }
  }

  /** `luaK_exp2nextreg` */
  method Exp2NextReg(fs: FuncState, e: ExpDesc, ghost n: nat) returns (r: Res<()>)
    requires fs.Valid() && e.Of(fs, n)
    modifies fs, e
    ensures match ExprGen.Exp2NextReg(old(fs.abs), old(e.abs))
            case Ok(p) => r.Ok? && fs.Valid() && fs.abs == p.0 && e.abs == p.1
            case Fail(x) => r == Fail(x)
    ensures r.Ok? ==> e.Of(fs, n) && e.Settled() && e.k.VNonReloc? && Stays(old(Now(fs)), Now(fs), n)
  {
    hide Linked, ExprGen.Exp2Reg, Shows, Closed;
    DischargeVars(e, fs, n);
    FreeExp(fs, e);
    r := fs.ReserveRegs(1);
    if r.Fail? { return; }
    r := Exp2Reg(fs, e, fs.freereg - 1, n);
  }

  /** A descriptor that is in a register already, with no jumps. */
  predicate InPlace(d: Desc) {
    (d.k.VNonReloc? || d.k.VLocal?) && !HasJumps(d)
  }

  /** `luaK_exp2anyreg` */
  method Exp2AnyReg(fs: FuncState, e: ExpDesc, ghost n: nat) returns (r: Res<()>)
    requires fs.Valid() && e.Of(fs, n)
    modifies fs, e
    ensures match ExprGen.Exp2AnyReg(old(fs.abs), old(e.abs))
            case Ok(p) => r.Ok? && fs.Valid() && fs.abs == p.0 && e.abs == p.1
            case Fail(x) => r == Fail(x)
    ensures r.Ok? ==> e.Of(fs, n) && e.Settled() && e.k.VNonReloc? && Stays(old(Now(fs)), Now(fs), n)
    ensures InPlace(old(e.abs)) ==> r.Ok? && Now(fs) == old(Now(fs))
  {
    OfHeads(fs, e, n);
    hide Linked, ExprGen.Exp2Reg, ExprGen.Exp2NextReg, Shows, Closed, Stays;
    DischargeVars(e, fs, n);
    DischargeNext(fs.abs, old(e.abs));
    if e.k.VNonReloc? {
      if e.t == e.f { return Ok(()); }
      if e.k.reg >= fs.nvars {
        r := Exp2Reg(fs, e, e.k.reg, n);
        return;
      }
    }
    r := Exp2NextReg(fs, e, n);
  }

  lemma DischargeNext(g: Gen, d: Desc)
    ensures ExprGen.Exp2NextReg(g, ExprGen.DischargeVars(d)) == ExprGen.Exp2NextReg(g, d)
  {
  }

  /** What the two heads tell about the lists. */
  lemma OfHeads(fs: FuncState, e: ExpDesc, n: nat)
    requires e.Of(fs, n)
    ensures (e.t == e.f) == !HasJumps(e.abs) && (e.t == e.f ==> e.abs.t == [] && e.abs.f == [] && e.t == NO_JUMP)
    ensures Stays(Now(fs), Now(fs), n) && n <= |fs.code|
  {
    SameHeads(fs.code, e.t, e.f, e.abs.t, e.abs.f);
    ThreadsHead(fs.code, e.t, e.abs.t);
  }

  /** A settled descriptor fits any code without jumps that wait. */
  lemma SettledOf(fs: FuncState, e: ExpDesc, n: nat)
    requires e.Settled() && n <= |fs.code| && Open(fs.abs.code, [], [], [], n)
    ensures e.Of(fs, n)
  {
  }

  /** `luaK_exp2K` */
  method Exp2K(fs: FuncState, e: ExpDesc, ghost n: nat) returns (r: Res<bool>)
    requires fs.Valid() && e.Of(fs, n)
    modifies fs`k, fs`abs, e
    ensures match ExprGen.Exp2K(old(fs.abs), old(e.abs))
            case Ok(p) => r == Ok(p.2) && fs.Valid() && fs.abs == p.0 && e.abs == p.1
            case Fail(x) => r == Fail(x)
    ensures r.Ok? ==> e.Of(fs, n) && fs.abs.code == old(fs.abs).code
    ensures r == Ok(true) ==> e.Settled() && e.k.VK?
  {
    OfHeads(fs, e, n);
    hide Open, Threads, Shows, Closed, ExprGen.AddK;
    if e.t != e.f { return Ok(false); }
    if e.k.VK? { return Ok(e.k.info <= MAXINDEXRK); }
    var v := ConstOf(e.k);
    if v.None? { return Ok(false); }
    var idx := fs.AddK(v.value);
    if idx.Fail? { return Fail(idx.error); }
    if idx.value > MAXINDEXRK { return Ok(false); }
    e.k := VK(idx.value);
    e.abs := e.abs.(k := VK(idx.value));
    return Ok(true);
  }

  /** `exp2RK` */
  method Exp2RK(fs: FuncState, e: ExpDesc, ghost n: nat) returns (r: Res<bool>)
    requires fs.Valid() && e.Of(fs, n)
    modifies fs, e
    ensures match ExprGen.Exp2RK(old(fs.abs), old(e.abs))
            case Ok(p) => r == Ok(p.2) && fs.Valid() && fs.abs == p.0 && e.abs == p.1
            case Fail(x) => r == Fail(x)
    ensures r.Ok? ==> e.Of(fs, n) && e.Settled() && Stays(old(Now(fs)), Now(fs), n)
    ensures r.Ok? ==> if r.value then e.k.VK? else e.k.VNonReloc?
  {
    OfHeads(fs, e, n);
    hide Linked, Shows, Closed, Stays, ExprGen.Exp2K, ExprGen.Exp2AnyReg;
    r := Exp2K(fs, e, n);
    if r.Fail? || r.value { return; }
    var any := Exp2AnyReg(fs, e, n);
    if any.Fail? { return Fail(any.error); }
  }

  // ----- jumps on conditions -----

  lemma {:induction false} ThreadsBelow(c: Code, c': Code, head: int, l: seq<nat>, m: nat)
    requires Threads(c, head, l) && (forall j :: j in l ==> j < m) && m <= |c| && m <= |c'| && c'[..m] == c[..m]
    ensures Threads(c', head, l)
    decreases l
  {
    if l != [] {
      assert l[0] in l && (forall j :: j in l[1..] ==> j in l) && c'[..m][l[0]] == c[..m][l[0]];
      ThreadsBelow(c, c', LinkOf(c, l[0]), l[1..], m);
    }
  }

  lemma OpenBelow(a: ICode, a': ICode, t: seq<nat>, f: seq<nat>, m: nat, n: nat)
    requires Open(a, t, f, [], n) && n <= m <= |a| <= m + 1 && (m < |a| ==> a[m].NotOp?)
    requires |a'| == m + 2 && a'[..m] == a[..m] && a'[m].IsTest() && a'[m + 1] == Jmp(Pending)
    ensures Open(a', t, f, [m + 1], n) && forall j :: j in t || j in f ==> j < m
  {
    forall i: nat | i < m ensures a'[i] == a[i] { assert a'[i] == a'[..m][i]; }
    forall j | j in t || j in f ensures j < m { assert a[j] == Jmp(Pending); }
    forall j: nat | n <= j < |a'| && a'[j] == Jmp(Pending) ensures j in t || j in f || j in [m + 1] {
      if j < m { assert a[j] == Jmp(Pending); }
    }
  }

  /** The last instruction, if it is a NOT, gives way to a test and its jump. */
  lemma TestAdded(was: Image, now: Image, t: int, f: int, d: Desc, m: nat, n: nat)
    requires Linked(was, t, f, d, [], n) && n <= m <= |was.code| == |was.abs| <= m + 1
    requires m < |was.abs| ==> was.abs[m].NotOp?
    requires |now.code| == |now.abs| == m + 2 && now.code[..m] == was.code[..m] && now.abs[..m] == was.abs[..m]
    requires now.abs[m].IsTest() && now.abs[m + 1] == Jmp(Pending) && now.code[m + 1] == Jmp(NO_JUMP)
    ensures Linked(now, t, f, d, [m + 1], n) && Stays(was, now, n)
  {
    OpenBelow(was.abs, now.abs, d.t, d.f, m, n);
    hide Open;
    ThreadsBelow(was.code, now.code, t, d.t, m);
    ThreadsBelow(was.code, now.code, f, d.f, m);
    hide Threads;
    forall i: nat | i < n ensures now.code[i] == was.code[i] && now.abs[i] == was.abs[i] {
      assert now.code[i] == now.code[..m][i] && now.abs[i] == now.abs[..m][i];
    }
    SingleList(now.code, m + 1);
  }

  /** `jumponcond` for an expression that ends in a NOT, which it drops */
  method JumpOnNot(fs: FuncState, e: ExpDesc, cond: bool, ghost n: nat) returns (pc: nat)
    requires fs.Valid() && e.Of(fs, n) && e.k.VReloc?
    modifies fs
    ensures fs.Valid() && Ok(fs.abs) == ExprGen.JumpOnCond(old(fs.abs), old(e.abs), cond) && pc == |fs.code| - 1
    ensures Linked(Now(fs), e.t, e.f, e.abs, [pc], n) && Stays(old(Now(fs)), Now(fs), n)
  {
    ghost var m := e.k.pc;
    var b := fs.code[e.k.pc].b;
    fs.RemoveLast();
    var test: Instr<Dest> := Test(b, !cond);
    pc := fs.CondJump(test);
    assert fs.abs.code == old(fs.abs).code[..m] + [test] + [Jmp(Pending)];
    hide Linked, Shows, Stays;
    TestAdded(old(Now(fs)), Now(fs), e.t, e.f, e.abs, m, n);
  }

  /** `jumponcond`: returns the position of the jump. */
  method JumpOnCond(fs: FuncState, e: ExpDesc, cond: bool, ghost n: nat) returns (r: Res<nat>)
    requires fs.Valid() && e.Of(fs, n) && !e.k.VJmp? && !e.k.VLocal?
    modifies fs, e
    ensures match ExprGen.JumpOnCond(old(fs.abs), old(e.abs), cond)
            case Ok(g) => r == Ok(|fs.code| - 1) && fs.Valid() && fs.abs == g
            case Fail(x) => r == Fail(x)
    ensures r.Ok? ==> Linked(Now(fs), e.t, e.f, e.abs, [r.value], n) && Stays(old(Now(fs)), Now(fs), n)
    ensures r.Ok? ==> e.abs.t == old(e.abs).t && e.abs.f == old(e.abs).f
  {
    hide Linked, Stays, ExprGen.Discharge2AnyReg, ExprGen.RemoveLast, NotOperand, Shows;
    if e.k.VReloc? {
      var pc := JumpOnNot(fs, e, cond, n);
      return Ok(pc);
    }
    ghost var d := e.abs;
    var any := Discharge2AnyReg(fs, e, n);
    if any.Fail? { return Fail(any.error); }
    label L:
    FreeExp(fs, e);
    var pc := fs.CondJump(TestSet(NO_REG, e.k.reg, cond));
    OfWithin(old@L(Now(fs)), e.t, e.f, e.abs, [], n);
    TestAdded(old@L(Now(fs)), Now(fs), e.t, e.f, e.abs, |old@L(fs.code)|, n);
    StaysOn(old(Now(fs)), old@L(Now(fs)), Now(fs), n);
    return Ok(pc);
  }

  lemma OfWithin(i: Image, t: int, f: int, d: Desc, p: seq<nat>, n: nat)
    requires Linked(i, t, f, d, p, n)
    ensures n <= |i.code| && n <= |i.abs|
  {
  }

  lemma OneTestStays(was: Image, now: Image, pc: nat, n: nat)
    requires OneTest(was.code, now.code, pc) && OneTest(was.abs, now.abs, pc) && n < pc
    requires n <= |was.code| && n <= |was.abs|
    ensures JumpsStay(was, now) && Stays(was, now, n)
  {
  }

  /** `negatecondition` */
  method NegateCondition(fs: FuncState, e: ExpDesc, ghost n: nat)
    requires fs.Valid() && e.Of(fs, n) && e.k.VJmp?
    modifies fs
    ensures fs.Valid() && fs.abs == ExprGen.NegateCondition(old(fs.abs), e.abs)
    ensures Linked(Now(fs), e.t, e.f, e.abs, MainJump(e.k), n) && Stays(old(Now(fs)), Now(fs), n)
  {
    assert e.k.pc in MainJump(e.k);
    fs.Negate(e.k.pc);
    OneTestStays(old(Now(fs)), Now(fs), e.k.pc, n);
    LinkedStays(old(Now(fs)), Now(fs), e.t, e.f, e.abs, MainJump(e.k), n);
  }

  /** The `switch` of `luaK_goiftrue` (`cond` false) and `luaK_goiffalse` (`cond` true). */
  method ExitJump(fs: FuncState, e: ExpDesc, cond: bool, ghost n: nat) returns (r: Res<int>)
    requires fs.Valid() && e.Of(fs, n) && !e.k.VLocal?
    modifies fs, e
    ensures match ExprGen.ExitJump(old(fs.abs), old(e.abs), cond)
            case Ok(p) => r.Ok? && r.value >= NO_JUMP && fs.Valid() && fs.abs == p.0 && JumpList(r.value) == p.1
            case Fail(x) => r == Fail(x)
    ensures r.Ok? ==> Linked(Now(fs), e.t, e.f, e.abs, JumpList(r.value), n) && Stays(old(Now(fs)), Now(fs), n)
    ensures r.Ok? ==> e.abs.t == old(e.abs).t && e.abs.f == old(e.abs).f
  {
    hide Linked, Stays, ExprGen.JumpOnCond, ExprGen.NegateCondition, Shows, Closed;
    OfHeads(fs, e, n);
    if e.k.VJmp? {
      if !cond { NegateCondition(fs, e, n); }
      return Ok(e.k.pc);
    } else if if cond then AlwaysFalse(e.k) else AlwaysTrue(e.k) {
      return Ok(NO_JUMP);
    }
    r := JumpOnCond(fs, e, cond, n);
  }

  /** `luaK_concat(fs, &e->f, pc)` */
  method ConcatFalse(fs: FuncState, e: ExpDesc, pc: int, ghost n: nat) returns (r: Res<()>)
    requires fs.Valid() && pc >= NO_JUMP && Linked(Now(fs), e.t, e.f, e.abs, JumpList(pc), n)
    modifies fs, e
    ensures match ExprGen.Concat(old(e.abs).f, JumpList(pc))
            case Ok(f) => r.Ok? && e.abs == old(e.abs).(f := f)
            case Fail(x) => r == Fail(x)
    ensures r.Ok? ==> Linked(Now(fs), e.t, e.f, e.abs, [], n) && fs.abs == old(fs.abs) && fs.Valid()
    ensures r.Ok? ==> e.k == old(e.k) && e.t == old(e.t) && Stays(old(Now(fs)), Now(fs), n)
  {
    ghost var p := JumpList(pc);
    assert pc >= 0 ==> pc in p;
    ListsApart(fs.abs.code, e.abs, p, n);
    ThreadsNone(fs.code);
    hide Open, Stays, Threads, ExprGen.Concat, Shows, NoDup, Apart, Pendings;
    var c := fs.Concat(e.f, pc, e.abs.f, p);
    if c.Fail? { return Fail(c.error); }
    ConcatIs(e.abs.f, p);
    Joined(old(Now(fs)), Now(fs), e.t, old(e.f), e.abs, p, c.value, n);
    e.f := c.value;
    e.abs := e.abs.(f := e.abs.f + p);
    return Ok(());
  }

  lemma ThreadsNone(c: Code)
    ensures Threads(c, NO_JUMP, [])
  {
  }

  /** `luaK_goiftrue` */
  method GoIfTrue(fs: FuncState, e: ExpDesc, ghost n: nat) returns (r: Res<()>)
    requires fs.Valid() && e.Of(fs, n)
    modifies fs, e
    ensures match ExprGen.GoIfTrue(old(fs.abs), old(e.abs))
            case Ok(p) => r.Ok? && fs.Valid() && fs.abs == p.0 && e.t == NO_JUMP && e.abs.t == [] && e.abs.f == p.1
            case Fail(x) => r == Fail(x)
    ensures r.Ok? ==> Linked(Now(fs), e.t, e.f, e.abs, [], n) && Stays(old(Now(fs)), Now(fs), n)
  {
    hide Open, Threads, Stays, ExprGen.ExitJump, ExprGen.Concat, ExprGen.PatchToHere, Shows, Closed, NoDup, Only, Patched;
    DischargeVars(e, fs, n);
    var pc := ExitJump(fs, e, false, n);
    if pc.Fail? { return Fail(pc.error); }
    label L:
    r := ConcatFalse(fs, e, pc.value, n);
    if r.Fail? { return; }
    StaysOn(old(Now(fs)), old@L(Now(fs)), Now(fs), n);
    label M:
    OpenLists(fs.abs.code, e.abs.t, e.abs.f, n);
    r := fs.PatchToHere(e.t, e.abs.t);
    if r.Fail? { return; }
    OpenSwap(old@M(fs.abs).code, e.abs.t, e.abs.f, [], n);
    ListDone(old@M(Now(fs)), Now(fs), e.abs.f, e.abs.t, n, e.f);
    OpenSwap(fs.abs.code, e.abs.f, [], [], n);
    StaysOn(old(Now(fs)), old@M(Now(fs)), Now(fs), n);
    ThreadsNone(fs.code);
    e.t := NO_JUMP;
    e.abs := e.abs.(t := []);
  }

  /** `luaK_goiffalse` */
  method GoIfFalse(fs: FuncState, e: ExpDesc, ghost n: nat) returns (r: Res<()>)
    requires fs.Valid() && e.Of(fs, n)
    modifies fs, e
    ensures match ExprGen.GoIfFalse(old(fs.abs), old(e.abs))
            case Ok(p) => r.Ok? && fs.Valid() && fs.abs == p.0 && e.f == NO_JUMP && e.abs.t == p.1 && e.abs.f == []
            case Fail(x) => r == Fail(x)
    ensures r.Ok? ==> Linked(Now(fs), e.t, e.f, e.abs, [], n) && Stays(old(Now(fs)), Now(fs), n)
  {
    hide Open, Threads, Stays, ExprGen.ExitJump, ExprGen.Concat, ExprGen.PatchToHere, Shows, Closed, NoDup, Only, Patched;
    DischargeVars(e, fs, n);
    var pc := ExitJump(fs, e, true, n);
    if pc.Fail? { return Fail(pc.error); }
    label L:
    r := ConcatTrue(fs, e, pc.value, n);
    if r.Fail? { return; }
    StaysOn(old(Now(fs)), old@L(Now(fs)), Now(fs), n);
    label M:
    OpenLists(fs.abs.code, e.abs.t, e.abs.f, n);
    r := fs.PatchToHere(e.f, e.abs.f);
    if r.Fail? { return; }
    ListDone(old@M(Now(fs)), Now(fs), e.abs.t, e.abs.f, n, e.t);
    StaysOn(old(Now(fs)), old@M(Now(fs)), Now(fs), n);
    ThreadsNone(fs.code);
    e.f := NO_JUMP;
    e.abs := e.abs.(f := []);
  }

  // ----- not -----

  /** One more NOT. */
  method NotRegister(fs: FuncState, e: ExpDesc, ghost n: nat) returns (r: Res<()>)
    requires fs.Valid() && e.Of(fs, n) && (e.k.VReloc? || e.k.VNonReloc?)
    modifies fs, e
    ensures match ExprGen.NegateMain(old(fs.abs), old(e.abs))
            case Ok(p) => r.Ok? && fs.Valid() && fs.abs == p.0 && e.abs == old(e.abs).(k := p.1)
            case Fail(x) => r == Fail(x)
    ensures r.Ok? ==> e.Of(fs, n) && Stays(old(Now(fs)), Now(fs), n)
  {
    hide Open, Threads, JumpsStay, Stays, ExprGen.Discharge2AnyReg, Shows;
    r := Discharge2AnyReg(fs, e, n);
    if r.Fail? { return; }
    label L:
    OfWithin(Now(fs), e.t, e.f, e.abs, [], n);
    FreeExp(fs, e);
    fs.Emit(NotOp(0, e.k.reg));
    EmittedStays(old@L(Now(fs)), Now(fs), NotOp(0, e.k.reg), n);
    LinkedStays(old@L(Now(fs)), Now(fs), e.t, e.f, e.abs, [], n);
    StaysOn(old(Now(fs)), old@L(Now(fs)), Now(fs), n);
    e.k := VReloc(|fs.code| - 1);
    e.abs := e.abs.(k := e.k);
  }

  /** The `switch` of `codenot` */
  method NegateMain(fs: FuncState, e: ExpDesc, ghost n: nat) returns (r: Res<()>)
    requires fs.Valid() && e.Of(fs, n) && !e.k.VLocal?
    modifies fs, e
    ensures match ExprGen.NegateMain(old(fs.abs), old(e.abs))
            case Ok(p) => r.Ok? && fs.Valid() && fs.abs == p.0 && e.abs == old(e.abs).(k := p.1)
            case Fail(x) => r == Fail(x)
    ensures r.Ok? ==> e.Of(fs, n) && Stays(old(Now(fs)), Now(fs), n)
  {
    OfHeads(fs, e, n);
    hide Open, Threads, JumpsStay, Stays, ExprGen.Discharge2AnyReg, ExprGen.NegateCondition, Shows;
    if AlwaysFalse(e.k) {
      e.k := VTrue;
      e.abs := e.abs.(k := VTrue);
    } else if AlwaysTrue(e.k) {
      e.k := VFalse;
      e.abs := e.abs.(k := VFalse);
    } else if e.k.VJmp? {
      NegateCondition(fs, e, n);
    } else {
      r := NotRegister(fs, e, n);
      return;
    }
    return Ok(());
  }

  lemma EmittedStays(was: Image, now: Image, i: Instr<Dest>, n: nat)
    requires now.code == was.code + [Word(i, |was.code|)] && now.abs == was.abs + [i] && i != Jmp(Pending)
    requires n <= |was.code| && n <= |was.abs|
    ensures JumpsStay(was, now) && Stays(was, now, n)
  {
  }

  /** Taking the values from one list leaves the lists. */
  lemma ValuesRemoved(was: Image, now: Image, t: int, f: int, d: Desc, p: seq<nat>, n: nat)
    requires Linked(was, t, f, d, p, n) && Threads(now.code, f, d.f)
    requires Only(was.code, now.code, d.f) && Only(was.abs, now.abs, d.f) && Pendings(now.abs, d.f)
    ensures Linked(now, t, f, d, p, n) && Stays(was, now, n)
    ensures |now.abs| == |was.abs|
    ensures forall i: nat {:trigger now.abs[i]} :: i + 1 == |was.abs| && was.abs[i].NotOp? ==> now.abs[i] == was.abs[i]
  {
    ThreadsStay(was.code, now.code, t, d.t, d.f);
    forall j | j in p ensures Threads(now.code, j, [j]) {
      ThreadsStay(was.code, now.code, j, [j], d.f);
    }
    forall j | j in d.t || j in p ensures now.abs[j] == Jmp(Pending) { assert was.abs[j] == Jmp(Pending); }
  }

  /** `codenot`, with the `luaK_dischargevars` of `luaK_prefix` */
  method CodeNot(fs: FuncState, e: ExpDesc, ghost n: nat) returns (r: Res<()>)
    requires fs.Valid() && e.Of(fs, n)
    modifies fs, e
    ensures match ExprGen.CodeNot(old(fs.abs), old(e.abs))
            case Ok(p) => r.Ok? && fs.Valid() && fs.abs == p.0 && e.abs == p.1
            case Fail(x) => r == Fail(x)
    ensures r.Ok? ==> e.Of(fs, n) && Stays(old(Now(fs)), Now(fs), n)
  {
    hide Open, Threads, Stays, Only, Pendings, NoDup, ExprGen.NegateMain, ExprGen.RemoveValues, Shows, Closed;
    DischargeVars(e, fs, n);
    r := NegateMain(fs, e, n);
    if r.Fail? { return; }
    label L:
    ghost var p := MainJump(e.k);
    SwapLinked(Now(fs), e.t, e.f, e.abs, p, n);
    e.t, e.f := e.f, e.t;
    e.abs := ExprGen.ExpDesc(e.abs.k, e.abs.f, e.abs.t);
    ListsApart(fs.abs.code, e.abs, p, n);
    fs.RemoveValues(e.f, e.abs.f);
    ValuesRemoved(old@L(Now(fs)), Now(fs), e.t, e.f, e.abs, p, n);
    StaysOn(old(Now(fs)), old@L(Now(fs)), Now(fs), n);
    label M:
    ListsApart(fs.abs.code, e.abs, p, n);
    SwapLinked(Now(fs), e.t, e.f, e.abs, p, n);
    ghost var s := ExprGen.ExpDesc(e.abs.k, e.abs.f, e.abs.t);
    fs.RemoveValues(e.t, e.abs.t);
    ValuesRemoved(old@M(Now(fs)), Now(fs), e.f, e.t, s, p, n);
    SwapLinked(Now(fs), e.f, e.t, s, p, n);
    StaysOn(old(Now(fs)), old@M(Now(fs)), Now(fs), n);
  }

  // ----- comparisons -----

  /** `isSCnumber` */
  method SCNumber(e: ExpDesc) returns (im: Option<nat>, isfloat: bool)
    requires e.k == e.abs.k && (e.t == e.f) == !HasJumps(e.abs)
    ensures (im, isfloat) == ExprGen.SCNumber(e.abs)
  {
    im, isfloat := None, false;
    var fi := None;
    match e.k {
      case VKInt(i) => fi := Some(i);
      case VKFlt(x) => fi := FltToInt(x);
      case _ =>
    }
    if fi.Some? {
      isfloat := e.k.VKFlt?;
      if e.t == e.f && FitsC(fi.value) { im := Some(fi.value + OFFSET_SC); }
    }
  }

  /** `freeexps` */
  method FreeExps(fs: FuncState, e1: ExpDesc, e2: ExpDesc)
    requires fs.Valid() && e1.k == e1.abs.k && e2.k == e2.abs.k
    modifies fs`freereg, fs`abs
    ensures fs.Valid() && fs.abs == ExprGen.FreeExps(old(fs.abs), e1.abs, e2.abs) && fs.abs.code == old(fs.abs).code
  {
    var r1 := if e1.k.VNonReloc? then e1.k.reg else -1;
    var r2 := if e2.k.VNonReloc? then e2.k.reg else -1;
    if r1 > r2 {
      fs.FreeReg(r1);
      fs.FreeReg(r2);
    } else {
      fs.FreeReg(r2);
      fs.FreeReg(r1);
    }
  }

  /** The end of `codeorder` and `codeeq`: the comparison becomes the main value of `e1`. */
  method FinishCompare(fs: FuncState, e1: ExpDesc, e2: ExpDesc, test: Instr<Dest>, ghost n: nat)
    requires fs.Valid() && e1.Of(fs, n) && e1.Settled() && e2.k == e2.abs.k && test.Cmp?
    modifies fs, e1
    ensures fs.Valid() && (fs.abs, e1.abs) == ExprGen.FinishCompare(old(fs.abs), old(e1.abs), old(e2.abs), test)
    ensures e1.Of(fs, n) && Stays(old(Now(fs)), Now(fs), n)
  {
    hide Linked, Shows, Stays, ExprGen.FreeExps;
    OfHeads(fs, e1, n);
    FreeExps(fs, e1, e2);
    label L:
    var pc := fs.CondJump(test);
    assert fs.abs.code == old@L(fs.abs).code + [test] + [Jmp(Pending)];
    ghost var d := e1.abs;
    TestAdded(old@L(Now(fs)), Now(fs), e1.t, e1.f, d, |old(fs.code)|, n);
    e1.k := VJmp(pc);
    e1.abs := e1.abs.(k := e1.k);
    LinkedKind(Now(fs), e1.t, e1.f, d, e1.abs, [pc], n);
    assert MainJump(e1.k) == [pc];
  }

  /** One operand settled and the other with all the jumps that wait. */
  ghost predicate Operands(fs: FuncState, e1: ExpDesc, e2: ExpDesc, n: nat)
    reads fs, e1, e2
  {
    && e1 != e2
    && ((e1.Settled() && e2.Of(fs, n) && (e1.k.VNonReloc? || ExprGen.SCNumber(e1.abs).0.Some?))
        || (e2.Settled() && e1.Of(fs, n)))
  }

  lemma OperandHeads(fs: FuncState, e1: ExpDesc, e2: ExpDesc, n: nat)
    requires (e1.Settled() && e2.Of(fs, n)) || (e2.Settled() && e1.Of(fs, n))
    ensures (e1.t == e1.f) == !HasJumps(e1.abs) && (e2.t == e2.f) == !HasJumps(e2.abs) && e1.k == e1.abs.k && e2.k == e2.abs.k
    ensures Stays(Now(fs), Now(fs), n) && n <= |fs.code|
    ensures !HasJumps(e1.abs) && !e1.k.VJmp? && !e1.k.VReloc? ==> e1.Settled() && e2.Of(fs, n)
    ensures !HasJumps(e2.abs) && !e2.k.VJmp? && !e2.k.VReloc? ==> e2.Settled() && e1.Of(fs, n)
  {
    if e1.Settled() && e2.Of(fs, n) {
      OfHeads(fs, e2, n);
      if !HasJumps(e2.abs) && !e2.k.VJmp? { SettledOf(fs, e1, n); }
    } else {
      OfHeads(fs, e1, n);
      if !HasJumps(e1.abs) && !e1.k.VJmp? { SettledOf(fs, e2, n); }
    }
  }

  /** Any settled descriptor has no code at all. */
  lemma SettledHere(fs: FuncState, e: ExpDesc)
    requires fs.Valid() && e.Settled()
    ensures e.Of(fs, |fs.code|)
  {
  }

  /** The first operand of `codeorder` is brought to a register. */
  method FirstToReg(fs: FuncState, e1: ExpDesc, e2: ExpDesc, ghost n: nat) returns (r: Res<()>)
    requires fs.Valid() && Operands(fs, e1, e2, n)
    requires ExprGen.SCNumber(e1.abs).0.None? || (e2.Settled() && e1.Of(fs, n))
    modifies fs, e1
    ensures match ExprGen.Exp2AnyReg(old(fs.abs), old(e1.abs))
            case Ok(p) => r.Ok? && fs.Valid() && fs.abs == p.0 && e1.abs == p.1
            case Fail(x) => r == Fail(x)
    ensures r.Ok? ==> e1.Settled() && e1.k.VNonReloc? && e2.Of(fs, n) && Stays(old(Now(fs)), Now(fs), n)
  {
    OperandHeads(fs, e1, e2, n);
    if e1.k.VNonReloc? && e1.t == e1.f {
      SettledHere(fs, e1);
      hide Linked, Stays, Shows, Closed, ExprGen.Exp2AnyReg;
      r := Exp2AnyReg(fs, e1, |fs.code|);
    } else {
      hide Linked, Stays, Shows, Closed, ExprGen.Exp2AnyReg;
      r := Exp2AnyReg(fs, e1, n);
      if r.Ok? { OperandHeads(fs, e1, e2, n); }
    }
  }

  /** The second operand follows. */
  method SecondToReg(fs: FuncState, e1: ExpDesc, e2: ExpDesc, ghost n: nat) returns (r: Res<()>)
    requires fs.Valid() && e1 != e2 && e1.Settled() && e2.Of(fs, n)
    modifies fs, e2
    ensures match ExprGen.Exp2AnyReg(old(fs.abs), old(e2.abs))
            case Ok(p) => r.Ok? && fs.Valid() && fs.abs == p.0 && e2.abs == p.1
            case Fail(x) => r == Fail(x)
    ensures r.Ok? ==> e2.Settled() && e2.k.VNonReloc? && e1.Of(fs, n) && Stays(old(Now(fs)), Now(fs), n)
  {
    hide Linked, Stays, Shows, Closed, ExprGen.Exp2AnyReg;
    r := Exp2AnyReg(fs, e2, n);
    if r.Ok? { OperandHeads(fs, e1, e2, n); }
  }

  method BothToRegs(fs: FuncState, e1: ExpDesc, e2: ExpDesc, ghost n: nat) returns (r: Res<()>)
    requires fs.Valid() && Operands(fs, e1, e2, n) && ExprGen.SCNumber(e1.abs).0.None?
    modifies fs, e1, e2
    ensures match ExprGen.Exp2AnyReg(old(fs.abs), old(e1.abs))
            case Fail(x) => r == Fail(x)
            case Ok(p) =>
              var second := ExprGen.Exp2AnyReg(p.0, old(e2.abs));
              if second.Fail? then r == Fail(second.error)
              else r.Ok? && fs.Valid() && fs.abs == second.value.0 && e1.abs == p.1 && e2.abs == second.value.1
    ensures r.Ok? ==> e1.Of(fs, n) && e1.Settled() && e1.k.VNonReloc? && e2.Settled() && e2.k.VNonReloc?
    ensures r.Ok? ==> Stays(old(Now(fs)), Now(fs), n)
  {
    hide Linked, Stays, Shows, Closed, ExprGen.Exp2AnyReg;
    r := FirstToReg(fs, e1, e2, n);
    if r.Fail? { return; }
    label L:
    r := SecondToReg(fs, e1, e2, n);
    if r.Ok? { StaysOn(old(Now(fs)), old@L(Now(fs)), Now(fs), n); }
  }

  /** `codeorder` with an immediate second operand */
  method OrderRight(fs: FuncState, op: CmpOp, im: nat, isfloat: bool, e1: ExpDesc, e2: ExpDesc, ghost n: nat)
    returns (r: Res<()>)
    requires fs.Valid() && e1 != e2 && e2.Settled() && e1.Of(fs, n)
    modifies fs, e1
    ensures match ExprGen.Exp2AnyReg(old(fs.abs), old(e1.abs))
            case Ok(p) =>
              var done := ExprGen.FinishCompare(p.0, p.1, e2.abs, Cmp(op, RegOf(p.1), im, isfloat, true));
              r.Ok? && fs.Valid() && fs.abs == done.0 && e1.abs == done.1
            case Fail(x) => r == Fail(x)
    ensures r.Ok? ==> e1.Of(fs, n) && Stays(old(Now(fs)), Now(fs), n)
  {
    hide Linked, Stays, Shows, Closed, ExprGen.Exp2AnyReg, ExprGen.FinishCompare;
    r := Exp2AnyReg(fs, e1, n);
    if r.Fail? { return; }
    label L:
    FinishCompare(fs, e1, e2, Cmp(op, e1.k.reg, im, isfloat, true), n);
    StaysOn(old(Now(fs)), old@L(Now(fs)), Now(fs), n);
  }

  /** `codeorder` with an immediate first operand, by the mirrored comparison */
  method OrderLeft(fs: FuncState, op: CmpOp, im: nat, isfloat: bool, e1: ExpDesc, e2: ExpDesc, ghost n: nat)
    returns (r: Res<()>)
    requires fs.Valid() && e1 != e2 && e1.Settled() && e2.Of(fs, n)
    modifies fs, e1, e2
    ensures match ExprGen.Exp2AnyReg(old(fs.abs), old(e2.abs))
            case Ok(p) =>
              var done := ExprGen.FinishCompare(p.0, old(e1.abs), p.1, Cmp(op, RegOf(p.1), im, isfloat, true));
              r.Ok? && fs.Valid() && fs.abs == done.0 && e1.abs == done.1
            case Fail(x) => r == Fail(x)
    ensures r.Ok? ==> e1.Of(fs, n) && Stays(old(Now(fs)), Now(fs), n)
  {
    hide Linked, Stays, Shows, Closed, ExprGen.Exp2AnyReg, ExprGen.FinishCompare;
    r := SecondToReg(fs, e1, e2, n);
    if r.Fail? { return; }
    label L:
    FinishCompare(fs, e1, e2, Cmp(op, e2.k.reg, im, isfloat, true), n);
    StaysOn(old(Now(fs)), old@L(Now(fs)), Now(fs), n);
  }

  /** `codeorder` with both operands in registers */
  method OrderRegisters(fs: FuncState, op: CmpOp, isfloat: bool, e1: ExpDesc, e2: ExpDesc, ghost n: nat) returns (r: Res<()>)
    requires fs.Valid() && Operands(fs, e1, e2, n) && ExprGen.SCNumber(e1.abs).0.None?
    modifies fs, e1, e2
    ensures match ExprGen.Exp2AnyReg(old(fs.abs), old(e1.abs))
            case Fail(x) => r == Fail(x)
            case Ok(p) =>
              var second := ExprGen.Exp2AnyReg(p.0, old(e2.abs));
              if second.Fail? then r == Fail(second.error)
              else
                var q := second.value.1;
                var done := ExprGen.FinishCompare(second.value.0, p.1, q, Cmp(op, RegOf(p.1), RegOf(q), isfloat, true));
                r.Ok? && fs.Valid() && fs.abs == done.0 && e1.abs == done.1
    ensures r.Ok? ==> e1.Of(fs, n) && Stays(old(Now(fs)), Now(fs), n)
  {
    hide Linked, Stays, Shows, Closed, ExprGen.Exp2AnyReg, ExprGen.FinishCompare, ExprGen.SCNumber;
    r := BothToRegs(fs, e1, e2, n);
    if r.Fail? { return; }
    label L:
    FinishCompare(fs, e1, e2, Cmp(op, e1.k.reg, e2.k.reg, isfloat, true), n);
    StaysOn(old(Now(fs)), old@L(Now(fs)), Now(fs), n);
  }

  /** `codeorder` for `<` (`less`) or `<=` */
  method CodeOrder(fs: FuncState, less: bool, e1: ExpDesc, e2: ExpDesc, ghost n: nat) returns (r: Res<()>)
    requires fs.Valid() && Operands(fs, e1, e2, n)
    modifies fs, e1, e2
    ensures match ExprGen.CodeOrder(old(fs.abs), less, old(e1.abs), old(e2.abs))
            case Ok(p) => r.Ok? && fs.Valid() && fs.abs == p.0 && e1.abs == p.1
            case Fail(x) => r == Fail(x)
    ensures r.Ok? ==> e1.Of(fs, n) && Stays(old(Now(fs)), Now(fs), n)
  {
    hide Linked, Stays, FuncState.Valid, ExprGen.Exp2AnyReg, ExprGen.FinishCompare;
    OperandHeads(fs, e1, e2, n);
    var im2, f2 := SCNumber(e2);
    var im1, f1 := SCNumber(e1);
    if im2.Some? {
      r := OrderRight(fs, if less then OpLtI else OpLeI, im2.value, f2, e1, e2, n);
    } else if im1.Some? {
      r := OrderLeft(fs, if less then OpGtI else OpGeI, im1.value, f2 || f1, e1, e2, n);
    } else {
      r := OrderRegisters(fs, if less then OpLt else OpLe, f2 || f1, e1, e2, n);
    }
  }

  /** `swapexps` */
  method SwapExps(e1: ExpDesc, e2: ExpDesc)
    modifies e1, e2
    ensures (e1.k, e1.t, e1.f, e1.abs) == old((e2.k, e2.t, e2.f, e2.abs))
    ensures (e2.k, e2.t, e2.f, e2.abs) == old((e1.k, e1.t, e1.f, e1.abs))
  {
    e1.k, e2.k := e2.k, e1.k;
    e1.t, e2.t := e2.t, e1.t;
    e1.f, e2.f := e2.f, e1.f;
    e1.abs, e2.abs := e2.abs, e1.abs;
  }

  /** The second half of `codeeq`: an immediate, a constant or another register. */
  method EqWith(fs: FuncState, equal: bool, e1: ExpDesc, e2: ExpDesc, ghost n: nat) returns (r: Res<()>)
    requires fs.Valid() && e1 != e2 && e1.Settled() && e1.k.VNonReloc? && e2.Of(fs, n)
    modifies fs, e1, e2
    ensures match ExprGen.EqWith(old(fs.abs), equal, old(e1.abs), old(e2.abs))
            case Ok(p) => r.Ok? && fs.Valid() && fs.abs == p.0 && e1.abs == p.1
            case Fail(x) => r == Fail(x)
    ensures r.Ok? ==> e1.Of(fs, n) && Stays(old(Now(fs)), Now(fs), n)
  {
    hide Linked, Stays, Shows, Closed, ExprGen.Exp2AnyReg, ExprGen.Exp2RK, ExprGen.FinishCompare;
    OperandHeads(fs, e1, e2, n);
    var im, isfloat := SCNumber(e2);
    if im.Some? {
      FinishCompare(fs, e1, e2, Cmp(OpEqI, e1.k.reg, im.value, isfloat, equal), n);
      return Ok(());
    }
    var isK := Exp2RK(fs, e2, n);
    if isK.Fail? { return Fail(isK.error); }
    OperandHeads(fs, e1, e2, n);
    label L:
    if isK.value {
      FinishCompare(fs, e1, e2, Cmp(OpEqK, e1.k.reg, e2.k.info, isfloat, equal), n);
    } else {
      r := SecondToReg(fs, e1, e2, n);
      if r.Fail? { return; }
      StaysOn(old(Now(fs)), old@L(Now(fs)), Now(fs), n);
      label M:
      FinishCompare(fs, e1, e2, Cmp(OpEq, e1.k.reg, e2.k.reg, isfloat, equal), n);
      StaysOn(old(Now(fs)), old@M(Now(fs)), Now(fs), n);
      return Ok(());
    }
    StaysOn(old(Now(fs)), old@L(Now(fs)), Now(fs), n);
    return Ok(());
  }

  /** `codeeq` */
  method CodeEq(fs: FuncState, equal: bool, e1: ExpDesc, e2: ExpDesc, ghost n: nat) returns (r: Res<()>)
    requires fs.Valid() && e1 != e2 && e1.Settled() && e2.Of(fs, n)
    modifies fs, e1, e2
    ensures match ExprGen.CodeEq(old(fs.abs), equal, old(e1.abs), old(e2.abs))
            case Ok(p) => r.Ok? && fs.Valid() && fs.abs == p.0 && e1.abs == p.1
            case Fail(x) => r == Fail(x)
    ensures r.Ok? ==> e1.Of(fs, n) && Stays(old(Now(fs)), Now(fs), n)
  {
    hide Linked, Stays, Shows, Closed, ExprGen.Exp2AnyReg, ExprGen.EqWith;
    if !e1.k.VNonReloc? { SwapExps(e1, e2); }
    label L:
    r := FirstToReg(fs, e1, e2, n);
    if r.Fail? { return; }
    label M:
    r := EqWith(fs, equal, e1, e2, n);
    if r.Ok? { StaysOn(old(Now(fs)), old@M(Now(fs)), Now(fs), n); }
  }

  // ----- operators -----

  /** `luaK_infix` for a comparison */
  method InfixRel(fs: FuncState, op: RelOp, e: ExpDesc, ghost n: nat) returns (r: Res<()>)
    requires fs.Valid() && e.Of(fs, n)
    modifies fs, e
    ensures match ExprGen.InfixRel(old(fs.abs), op, old(e.abs))
            case Ok(p) => r.Ok? && fs.Valid() && fs.abs == p.0 && e.abs == p.1
            case Fail(x) => r == Fail(x)
    ensures r.Ok? ==> e.Of(fs, n) && e.Settled() && Stays(old(Now(fs)), Now(fs), n)
    ensures r.Ok? && op != Eq && op != Ne ==> e.k.VNonReloc? || ExprGen.SCNumber(e.abs).0.Some?
  {
    OfHeads(fs, e, n);
    hide Linked, Stays, Shows, Closed, ExprGen.Exp2AnyReg, ExprGen.Exp2RK;
    DischargeVars(e, fs, n);
    if op == Eq || op == Ne {
      if e.t == e.f && (e.k.VKInt? || e.k.VKFlt?) { return Ok(()); }
      var isK := Exp2RK(fs, e, n);
      return if isK.Fail? then Fail(isK.error) else Ok(());
    }
    var im, _ := SCNumber(e);
    if im.Some? { return Ok(()); }
    r := Exp2AnyReg(fs, e, n);
  }

  /** `luaK_posfix` for a comparison */
  method PosfixRel(fs: FuncState, op: RelOp, e1: ExpDesc, e2: ExpDesc, ghost n: nat) returns (r: Res<()>)
    requires fs.Valid() && e1 != e2 && e1.Settled() && e2.Of(fs, n)
    requires op != Eq && op != Ne ==> e1.k.VNonReloc? || ExprGen.SCNumber(e1.abs).0.Some?
    modifies fs, e1, e2
    ensures match ExprGen.PosfixRel(old(fs.abs), op, old(e1.abs), old(e2.abs))
            case Ok(p) => r.Ok? && fs.Valid() && fs.abs == p.0 && e1.abs == p.1
            case Fail(x) => r == Fail(x)
    ensures r.Ok? ==> e1.Of(fs, n) && Stays(old(Now(fs)), Now(fs), n)
  {
    hide Linked, Stays, Shows, Closed, ExprGen.CodeOrder, ExprGen.CodeEq, ExprGen.SCNumber;
    DischargeVars(e2, fs, n);
    match op {
      case Eq => r := CodeEq(fs, true, e1, e2, n);
      case Ne => r := CodeEq(fs, false, e1, e2, n);
      case Lt => r := CodeOrder(fs, true, e1, e2, n);
      case Le => r := CodeOrder(fs, false, e1, e2, n);
      case Gt =>
        SwapExps(e1, e2);
        r := CodeOrder(fs, true, e1, e2, n);
      case Ge =>
        SwapExps(e1, e2);
        r := CodeOrder(fs, false, e1, e2, n);
    }
  }

  /** A second operand with code from `m` on, after code from `n` to `m` whose jumps all wait in `t` and `f`. */
  lemma OpenBoth(was: ICode, a: ICode, t: seq<nat>, f: seq<nat>, t2: seq<nat>, f2: seq<nat>, p: seq<nat>, n: nat)
    requires Open(was, t, f, [], n) && Open(a, t2, f2, p, |was|) && Kept(was, a, |was|) && Apart(t, f)
    ensures Open(a, t2 + t, f2 + f, p, n)
  {
    forall j | j in t || j in f ensures a[j] == Jmp(Pending) && n < j < |was| { assert was[j] == Jmp(Pending); }
    forall j: nat | n <= j < |a| && a[j] == Jmp(Pending) ensures j in t2 + t || j in f2 + f || j in p {
      if j < |was| { assert was[j] == Jmp(Pending); }
    }
    Disjoint(t2, t, |was|);
    Disjoint(f2, f, |was|);
  }

  lemma Disjoint(a: seq<nat>, b: seq<nat>, m: nat)
    requires NoDup(a) && NoDup(b) && (forall j :: j in a ==> m <= j) && (forall j :: j in b ==> j < m)
    ensures NoDup(a + b)
  {
    forall i, j | 0 <= i < j < |a + b| ensures (a + b)[i] != (a + b)[j] {
      assert i < |a| ==> a[i] in a;
      assert j >= |a| ==> b[j - |a|] in b;
    }
  }

  /** The list of the first operand's exits is joined to the same list of the second operand. */
  lemma ListsMeet(was: Image, i: Image, now: Image, head: int, d: Desc, t2: int, f2: int, d2: Desc, f': int, p: seq<nat>, n: nat)
    requires Linked(was, NO_JUMP, head, d, [], n) && d.t == [] && |was.code| == |was.abs|
    requires Linked(i, t2, f2, d2, p, |was.code|) && Stays(was, i, |was.code|)
    requires now.abs == i.abs && |now.code| == |i.code|
    requires forall x: nat {:trigger now.code[x]} :: x < |i.code| && x !in d2.f ==> now.code[x] == i.code[x]
    requires Threads(now.code, f', d2.f + d.f)
    ensures Linked(now, t2, f', d2.(f := d2.f + d.f), p, n) && Stays(was, now, n)
  {
    OpenBoth(was.abs, i.abs, [], d.f, d2.t, d2.f, p, n);
    assert d2.t + [] == d2.t;
    ThreadsFrame(i.code, now.code, t2, d2.t);
    forall j | j in p ensures Threads(now.code, j, [j]) { ThreadsFrame(i.code, now.code, j, [j]); }
  }

  lemma TrueListsMeet(was: Image, i: Image, now: Image, head: int, d: Desc, t2: int, f2: int, d2: Desc, t': int, p: seq<nat>,
                      n: nat)
    requires Linked(was, head, NO_JUMP, d, [], n) && d.f == [] && |was.code| == |was.abs|
    requires Linked(i, t2, f2, d2, p, |was.code|) && Stays(was, i, |was.code|)
    requires now.abs == i.abs && |now.code| == |i.code|
    requires forall x: nat {:trigger now.code[x]} :: x < |i.code| && x !in d2.t ==> now.code[x] == i.code[x]
    requires Threads(now.code, t', d2.t + d.t)
    ensures Linked(now, t', f2, d2.(t := d2.t + d.t), p, n) && Stays(was, now, n)
  {
    hide Linked, Stays, Threads;
    var s1, s2 := ExprGen.ExpDesc(d.k, d.f, d.t), ExprGen.ExpDesc(d2.k, d2.f, d2.t);
    SwapLinked(was, head, NO_JUMP, d, [], n);
    SwapLinked(i, t2, f2, d2, p, |was.code|);
    ListsMeet(was, i, now, head, s1, f2, t2, s2, t', p, n);
    SwapLinked(now, f2, t', s2.(f := s2.f + s1.f), p, n);
  }

  /** The exits of the first operand are still threaded after the second. */
  lemma HeadStays(was: Image, i: Image, t: int, f: int, d: Desc, n: nat)
    requires Linked(was, t, f, d, [], n) && Stays(was, i, |was.code|) && |was.code| == |was.abs|
    ensures Threads(i.code, t, d.t) && Threads(i.code, f, d.f)
    ensures forall j :: j in d.t || j in d.f ==> j < |was.code| && n < j
  {
    ThreadsHead(was.code, t, d.t);
    ThreadsHead(was.code, f, d.f);
    ThreadsFrame(was.code, i.code, t, d.t);
    ThreadsFrame(was.code, i.code, f, d.f);
  }

  lemma MeetApart(was: Image, i: Image, t: int, f: int, d: Desc, t2: int, f2: int, d2: Desc, p: seq<nat>, n: nat)
    requires Linked(was, t, f, d, [], n) && |was.code| == |was.abs| && Linked(i, t2, f2, d2, p, |was.code|)
    ensures Threads(i.code, t2, d2.t) && Threads(i.code, f2, d2.f)
    ensures Apart(d2.t, d.t) && Apart(d2.f, d.f) && NoDup(d2.t) && NoDup(d2.f) && Pendings(i.abs, d2.t) && Pendings(i.abs, d2.f)
  {
  }

  /** The first operand's false list goes to the end of the second's. */
  method AppendFalse(fs: FuncState, e1: ExpDesc, e2: ExpDesc, ghost was: Image, ghost n: nat) returns (r: Res<()>)
    requires fs.Valid() && e1 != e2 && e1.t == NO_JUMP && e1.abs.t == []
    requires |was.code| == |was.abs| && Linked(was, e1.t, e1.f, e1.abs, [], n)
    requires e2.Of(fs, |was.code|) && Stays(was, Now(fs), |was.code|)
    modifies fs, e2`f, e2`abs
    ensures match ExprGen.Concat(old(e2.abs).f, e1.abs.f)
            case Ok(f) => r.Ok? && fs.Valid() && fs.abs == old(fs.abs) && e2.abs == old(e2.abs).(f := f)
            case Fail(x) => r == Fail(x)
    ensures r.Ok? ==> e2.Of(fs, n) && Stays(was, Now(fs), n)
  {
    hide Linked, Stays, Threads, Shows, NoDup, Apart, Pendings, ExprGen.Concat;
    ghost var p := MainJump(e2.k);
    LinkedWithin(was, e1.t, e1.f, e1.abs, [], n);
    HeadStays(was, Now(fs), e1.t, e1.f, e1.abs, n);
    MeetApart(was, Now(fs), e1.t, e1.f, e1.abs, e2.t, e2.f, e2.abs, p, n);
    var c := fs.Concat(e2.f, e1.f, e2.abs.f, e1.abs.f);
    if c.Fail? { return Fail(c.error); }
    ConcatIs(e2.abs.f, e1.abs.f);
    ListsMeet(was, old(Now(fs)), Now(fs), e1.f, e1.abs, e2.t, e2.f, e2.abs, c.value, p, n);
    e2.f := c.value;
    e2.abs := e2.abs.(f := e2.abs.f + e1.abs.f);
    return Ok(());
  }

  /** What `luaK_posfix` does for `and`: the code of `e1` ended with `was`, with its true list closed. */
  method PosfixAnd(fs: FuncState, e1: ExpDesc, e2: ExpDesc, ghost was: Image, ghost n: nat) returns (r: Res<()>)
    requires fs.Valid() && e1 != e2 && e1.t == NO_JUMP && e1.abs.t == []
    requires |was.code| == |was.abs| && Linked(was, e1.t, e1.f, e1.abs, [], n)
    requires e2.Of(fs, |was.code|) && Stays(was, Now(fs), |was.code|)
    modifies fs, e1, e2
    ensures match ExprGen.Concat(old(e2.abs).f, old(e1.abs).f)
            case Ok(f) => r.Ok? && fs.Valid() && fs.abs == old(fs.abs) && e1.abs == ExprGen.DischargeVars(old(e2.abs)).(f := f)
            case Fail(x) => r == Fail(x)
    ensures r.Ok? ==> e1.Of(fs, n) && Stays(was, Now(fs), n)
  {
    hide Linked, Stays, Shows, Closed, ExprGen.Concat;
    DischargeVars(e2, fs, |was.code|);
    r := AppendFalse(fs, e1, e2, was, n);
    if r.Ok? { Copy(e1, e2); }
  }

  lemma LinkedWithin(i: Image, t: int, f: int, d: Desc, p: seq<nat>, n: nat)
    requires Linked(i, t, f, d, p, n) && |i.code| == |i.abs|
    ensures n <= |i.code|
  {
  }

  /** The first operand's true list goes to the end of the second's. */
  method AppendTrue(fs: FuncState, e1: ExpDesc, e2: ExpDesc, ghost was: Image, ghost n: nat) returns (r: Res<()>)
    requires fs.Valid() && e1 != e2 && e1.f == NO_JUMP && e1.abs.f == []
    requires |was.code| == |was.abs| && Linked(was, e1.t, e1.f, e1.abs, [], n)
    requires e2.Of(fs, |was.code|) && Stays(was, Now(fs), |was.code|)
    modifies fs, e2`t, e2`abs
    ensures match ExprGen.Concat(old(e2.abs).t, e1.abs.t)
            case Ok(t) => r.Ok? && fs.Valid() && fs.abs == old(fs.abs) && e2.abs == old(e2.abs).(t := t)
            case Fail(x) => r == Fail(x)
    ensures r.Ok? ==> e2.Of(fs, n) && Stays(was, Now(fs), n)
  {
    hide Linked, Stays, Threads, Shows, NoDup, Apart, Pendings, ExprGen.Concat;
    ghost var p := MainJump(e2.k);
    LinkedWithin(was, e1.t, e1.f, e1.abs, [], n);
    HeadStays(was, Now(fs), e1.t, e1.f, e1.abs, n);
    MeetApart(was, Now(fs), e1.t, e1.f, e1.abs, e2.t, e2.f, e2.abs, p, n);
    var c := fs.Concat(e2.t, e1.t, e2.abs.t, e1.abs.t);
    if c.Fail? { return Fail(c.error); }
    ConcatIs(e2.abs.t, e1.abs.t);
    TrueListsMeet(was, old(Now(fs)), Now(fs), e1.t, e1.abs, e2.t, e2.f, e2.abs, c.value, p, n);
    e2.t := c.value;
    e2.abs := e2.abs.(t := e2.abs.t + e1.abs.t);
    return Ok(());
  }

  /** What `luaK_posfix` does for `or`: the code of `e1` ended with `was`, with its false list closed. */
  method PosfixOr(fs: FuncState, e1: ExpDesc, e2: ExpDesc, ghost was: Image, ghost n: nat) returns (r: Res<()>)
    requires fs.Valid() && e1 != e2 && e1.f == NO_JUMP && e1.abs.f == []
    requires |was.code| == |was.abs| && Linked(was, e1.t, e1.f, e1.abs, [], n)
    requires e2.Of(fs, |was.code|) && Stays(was, Now(fs), |was.code|)
    modifies fs, e1, e2
    ensures match ExprGen.Concat(old(e2.abs).t, old(e1.abs).t)
            case Ok(t) => r.Ok? && fs.Valid() && fs.abs == old(fs.abs) && e1.abs == ExprGen.DischargeVars(old(e2.abs)).(t := t)
            case Fail(x) => r == Fail(x)
    ensures r.Ok? ==> e1.Of(fs, n) && Stays(was, Now(fs), n)
  {
    hide Linked, Stays, Shows, Closed, ExprGen.Concat;
    DischargeVars(e2, fs, |was.code|);
    r := AppendTrue(fs, e1, e2, was, n);
    if r.Ok? { Copy(e1, e2); }
  }

  /** `*e1 = *e2` */
  method Copy(e1: ExpDesc, e2: ExpDesc)
    requires e1 != e2
    modifies e1
    ensures (e1.k, e1.t, e1.f, e1.abs) == (e2.k, e2.t, e2.f, e2.abs)
  {
    e1.k, e1.t, e1.f, e1.abs := e2.k, e2.t, e2.f, e2.abs;
  }

  /** After an operand without jumps the second operand's jumps are the only ones. */
  lemma SecondOnly(fs: FuncState, e: ExpDesc, was: Image, n: nat)
    requires e.Of(fs, |was.code|) && |was.code| == |was.abs| && n <= |was.code|
    requires Open(was.abs, [], [], [], n) && Stays(was, Now(fs), |was.code|)
    ensures e.Of(fs, n)
  {
    OpenBoth(was.abs, fs.abs.code, [], [], e.abs.t, e.abs.f, MainJump(e.k), n);
    assert e.abs.t + [] == e.abs.t && e.abs.f + [] == e.abs.f;
  }

  /** Keeping more keeps less. */
  lemma StaysLess(was: Image, now: Image, m: nat, n: nat)
    requires Stays(was, now, m) && n <= m
    ensures Stays(was, now, n)
  {
  }

  /** `subexpr` on an expression tree: the calls to the code generator in their order. The descriptor is
      that of the code added. */
  method SubExpr(fs: FuncState, x: Expr, e: ExpDesc) returns (r: Res<()>)
    requires fs.Valid()
    modifies fs, e
    ensures match ExprGen.Compile(old(fs.abs), x)
            case Ok(p) => r.Ok? && fs.Valid() && fs.abs == p.0 && e.abs == p.1
            case Fail(y) => r == Fail(y)
    ensures r.Ok? ==> e.Of(fs, |old(fs.code)|) && Stays(old(Now(fs)), Now(fs), |old(fs.code)|)
    decreases x, 1
  {
    match x {
      case ENot(_) => r := NotExpr(fs, x, e);
      case EAnd(_, _) => r := AndExpr(fs, x, e);
      case EOr(_, _) => r := OrExpr(fs, x, e);
      case ERel(_, _, _) => r := RelExpr(fs, x, e);
      case _ =>
        e.k, e.t, e.f := Leaf(x), NO_JUMP, NO_JUMP;
        e.abs := ExprGen.ExpDesc(e.k, [], []);
        r := Ok(());
    }
  }

  method NotExpr(fs: FuncState, x: Expr, e: ExpDesc) returns (r: Res<()>)
    requires fs.Valid() && x.ENot?
    modifies fs, e
    ensures match ExprGen.Compile(old(fs.abs), x)
            case Ok(p) => r.Ok? && fs.Valid() && fs.abs == p.0 && e.abs == p.1
            case Fail(y) => r == Fail(y)
    ensures r.Ok? ==> e.Of(fs, |old(fs.code)|) && Stays(old(Now(fs)), Now(fs), |old(fs.code)|)
    decreases x, 0
  {
    hide Linked, Stays, Shows, Closed, ExprGen.CodeNot;
    ghost var n := |fs.code|;
    r := SubExpr(fs, x.e, e);
    if r.Fail? { return; }
    label L:
    r := CodeNot(fs, e, n);
    if r.Ok? { StaysOn(old(Now(fs)), old@L(Now(fs)), Now(fs), n); }
  }

  method AndExpr(fs: FuncState, x: Expr, e: ExpDesc) returns (r: Res<()>)
    requires fs.Valid() && x.EAnd?
    modifies fs, e
    ensures match ExprGen.Compile(old(fs.abs), x)
            case Ok(p) => r.Ok? && fs.Valid() && fs.abs == p.0 && e.abs == p.1
            case Fail(z) => r == Fail(z)
    ensures r.Ok? ==> e.Of(fs, |old(fs.code)|) && Stays(old(Now(fs)), Now(fs), |old(fs.code)|)
    decreases x, 0
  {
    hide Linked, Stays, Shows, Closed, ExprGen.GoIfTrue, ExprGen.Concat;
    ghost var n := |fs.code|;
    r := SubExpr(fs, x.l, e);
    if r.Fail? { return; }
    label L:
    r := GoIfTrue(fs, e, n);
    if r.Fail? { return; }
    StaysOn(old(Now(fs)), old@L(Now(fs)), Now(fs), n);
    label M:
    ghost var was := Now(fs);
    var e2 := new ExpDesc(VNil);
    r := SubExpr(fs, x.r, e2);
    if r.Fail? { return; }
    r := PosfixAnd(fs, e, e2, was, n);
    if r.Ok? { StaysOn(old(Now(fs)), was, Now(fs), n); }
  }

  method OrExpr(fs: FuncState, x: Expr, e: ExpDesc) returns (r: Res<()>)
    requires fs.Valid() && x.EOr?
    modifies fs, e
    ensures match ExprGen.Compile(old(fs.abs), x)
            case Ok(p) => r.Ok? && fs.Valid() && fs.abs == p.0 && e.abs == p.1
            case Fail(z) => r == Fail(z)
    ensures r.Ok? ==> e.Of(fs, |old(fs.code)|) && Stays(old(Now(fs)), Now(fs), |old(fs.code)|)
    decreases x, 0
  {
    hide Linked, Stays, Shows, Closed, ExprGen.GoIfFalse, ExprGen.Concat;
    ghost var n := |fs.code|;
    r := SubExpr(fs, x.l, e);
    if r.Fail? { return; }
    label L:
    r := GoIfFalse(fs, e, n);
    if r.Fail? { return; }
    StaysOn(old(Now(fs)), old@L(Now(fs)), Now(fs), n);
    ghost var was := Now(fs);
    var e2 := new ExpDesc(VNil);
    r := SubExpr(fs, x.r, e2);
    if r.Fail? { return; }
    r := PosfixOr(fs, e, e2, was, n);
    if r.Ok? { StaysOn(old(Now(fs)), was, Now(fs), n); }
  }

  method RelExpr(fs: FuncState, x: Expr, e: ExpDesc) returns (r: Res<()>)
    requires fs.Valid() && x.ERel?
    modifies fs, e
    ensures match ExprGen.Compile(old(fs.abs), x)
            case Ok(p) => r.Ok? && fs.Valid() && fs.abs == p.0 && e.abs == p.1
            case Fail(z) => r == Fail(z)
    ensures r.Ok? ==> e.Of(fs, |old(fs.code)|) && Stays(old(Now(fs)), Now(fs), |old(fs.code)|)
    decreases x, 0
  {
    hide Open, Threads, Stays, Shows, Closed, ExprGen.InfixRel, ExprGen.PosfixRel, ExprGen.SCNumber;
    ghost var n := |fs.code|;
    r := SubExpr(fs, x.l, e);
    if r.Fail? { return; }
    label L:
    r := InfixRel(fs, x.op, e, n);
    if r.Fail? { return; }
    StaysOn(old(Now(fs)), old@L(Now(fs)), Now(fs), n);
    ghost var was := Now(fs);
    var e2 := new ExpDesc(VNil);
    r := SubExpr(fs, x.r, e2);
    if r.Fail? { return; }
    SecondOnly(fs, e2, was, n);
    StaysLess(was, Now(fs), |was.code|, n);
    StaysOn(old(Now(fs)), was, Now(fs), n);
    label M:
    r := PosfixRel(fs, x.op, e, e2, n);
    if r.Ok? { StaysOn(old(Now(fs)), old@M(Now(fs)), Now(fs), n); }
  }

  /** `luaK_storevar` into a local variable */
  method StoreLocal(fs: FuncState, e: ExpDesc, reg: nat, ghost n: nat) returns (r: Res<()>)
    requires fs.Valid() && e.Of(fs, n)
    modifies fs, e
    ensures match ExprGen.StoreLocal(old(fs.abs), old(e.abs), reg)
            case Ok(g) => r.Ok? && fs.Valid() && fs.abs == g
            case Fail(x) => r == Fail(x)
    ensures r.Ok? ==> e.Of(fs, n) && e.k == VNonReloc(reg) && Stays(old(Now(fs)), Now(fs), n)
  {
    hide Linked, ExprGen.Exp2Reg, Shows, Closed;
    FreeExp(fs, e);
    r := Exp2Reg(fs, e, reg, n);
  }
}
