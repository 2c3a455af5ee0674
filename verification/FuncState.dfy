/** The patch lists of lcode.c as they are kept: threaded through the offset fields of the jumps that wait
    for a target. Every loop over a list is proved to do what the functions of ExprGen.dfy do on the
    sequence of its jumps. */
module FuncState {
  import opened Wrappers
  import opened LuaOps
  import opened ExprGen
  import opened ExecLemmas

  type Code = seq<Instr<int>>

  /** The instruction word for an instruction whose jump, if it is one, has a target. */
  function Word(i: Instr<Dest>, pc: nat): Instr<int> {
    match i
    case Move(a, b) => Move(a, b)
    case LoadI(a, n) => LoadI(a, n)
    case LoadF(a, n) => LoadF(a, n)
    case LoadK(a, k) => LoadK(a, k)
    case LoadKX(a) => LoadKX(a)
    case ExtraArg(ax) => ExtraArg(ax)
    case LoadFalse(a) => LoadFalse(a)
    case LFalseSkip(a) => LFalseSkip(a)
    case LoadTrue(a) => LoadTrue(a)
    case LoadNil(a, n) => LoadNil(a, n)
    case NotOp(a, b) => NotOp(a, b)
    case Jmp(j) => Jmp(if j == Pending then NO_JUMP else j.pc - (pc + 1))
    case Cmp(op, a, b, isfloat, cond) => Cmp(op, a, b, isfloat, cond)
    case Test(a, cond) => Test(a, cond)
    case TestSet(a, b, cond) => TestSet(a, b, cond)
  }

  /** The code array stands for abstract code: the same instructions, and any offset in a pending jump. */
  ghost predicate Shows(code: Code, abs: ICode) {
    && |code| == |abs|
    && forall i: nat {:trigger code[i]} {:trigger abs[i]} :: i < |abs| ==>
         if abs[i] == Jmp(Pending) then code[i].Jmp? else code[i] == Word(abs[i], i)
  }

  /** The list that starts at `head` is threaded through the code as the jumps of `l`, in order. */
  ghost predicate Threads(code: Code, head: int, l: seq<nat>)
    decreases l
  {
    if l == [] then head == NO_JUMP
    else head == l[0] && l[0] < |code| && code[l[0]].Jmp? && Threads(code, LinkOf(code, l[0]), l[1..])
  }

  /** `getjump` */
  function LinkOf(code: Code, pc: nat): int
    requires pc < |code| && code[pc].Jmp?
  {
    if code[pc].j == NO_JUMP then NO_JUMP else pc + 1 + code[pc].j
  }

  /** The assignment of `fixjump` */
  function Link(code: Code, pc: nat, dest: int): Code
    requires pc < |code|
  {
    code[pc := Jmp(dest - (pc + 1))]
  }

  /** Changing code outside a list leaves the list. */
  lemma {:induction false} ThreadsFrame(code: Code, code': Code, head: int, l: seq<nat>)
    requires Threads(code, head, l) && |code| <= |code'| && forall j :: j in l && j < |code| ==> code'[j] == code[j]
    ensures Threads(code', head, l)
    decreases l
  {
    if l != [] {
      assert l[0] in l;
      assert forall j :: j in l[1..] ==> j in l;
      ThreadsFrame(code, code', LinkOf(code, l[0]), l[1..]);
    }
  }

  /** A threaded list never returns to one of its jumps: it is as long as its sequence, without repetition
      when that has none, and only the end mark ends it. */
  lemma {:induction false} ThreadsHead(code: Code, head: int, l: seq<nat>)
    requires Threads(code, head, l)
    ensures (l == []) == (head == NO_JUMP)
    ensures forall j :: j in l ==> j < |code| && code[j].Jmp?
    decreases l
  {
    if l != [] {
      ThreadsHead(code, LinkOf(code, l[0]), l[1..]);
      assert l == [l[0]] + l[1..];
    }
  }

  /** The last jump of a list, linked to another list, joins the two. */
  lemma {:induction false} ThreadsJoin(code: Code, head: int, l1: seq<nat>, l2: seq<nat>)
    requires l1 != [] && l2 != [] && Threads(code, head, l1) && Threads(code, l2[0], l2)
    requires NoDup(l1) && forall j :: j in l1 ==> j !in l2
    ensures var last := l1[|l1| - 1];
            last < |code| && Threads(Link(code, last, l2[0]), head, l1 + l2)
    decreases l1
  {
    var last := l1[|l1| - 1];
    ThreadsHead(code, head, l1);
    ThreadsHead(code, l2[0], l2);
    assert last in l1 && l2[0] in l2 && last != l2[0];
    var code' := Link(code, last, l2[0]);
    if |l1| == 1 {
      ThreadsFrame(code, code', l2[0], l2);
      assert (l1 + l2)[1..] == l2;
    } else {
      assert l1[1..][|l1| - 2] == last && l1[0] != last;
      assert forall j :: j in l1[1..] ==> j in l1;
      ThreadsJoin(code, LinkOf(code, l1[0]), l1[1..], l2);
      assert (l1 + l2)[1..] == l1[1..] + l2;
    }
  }

  // ----- what patching changes -----

  /** The jumps of a list all wait for their targets. */
  ghost predicate Pendings(abs: ICode, l: seq<nat>) {
    forall j :: j in l ==> j < |abs| && abs[j] == Jmp(Pending)
  }

  /** Only the jumps of the list and the tests before them may differ; tests stay tests. */
  ghost predicate Only<J(!new)>(c: seq<Instr<J>>, c': seq<Instr<J>>, l: seq<nat>) {
    && |c'| == |c|
    && (forall i: nat {:trigger c'[i]} :: i < |c| && i !in l && (i + 1 !in l || !c[i].IsTest()) ==> c'[i] == c[i])
    && (forall i: nat {:trigger c'[i]} :: i < |c| && i !in l ==> c'[i].IsTest() == c[i].IsTest())
    && (forall i: nat {:trigger c'[i]} :: i < |c| && i in l ==> c'[i].Jmp?)
  }

  /** At most the test before `pc` is another one. */
  ghost predicate OneTest<J(!new)>(c: seq<Instr<J>>, c': seq<Instr<J>>, pc: nat) {
    && |c'| == |c|
    && forall i: nat {:trigger c'[i]} :: i < |c| ==>
         c'[i] == c[i] || (i + 1 == pc && c'[i].IsTest() && c[i].IsTest())
  }

  /** Code that does not end between a test and its jump. */
  ghost predicate Closed(abs: ICode) {
    abs == [] || !abs[|abs| - 1].IsTest()
  }

  ghost predicate Apart(l: seq<nat>, s: seq<nat>) {
    forall j :: j in l ==> j !in s
  }

  /** Code before position `n` stays, except that a LOADNIL may widen. */
  ghost predicate Kept<J(!new)>(c: seq<Instr<J>>, c': seq<Instr<J>>, n: nat) {
    && n <= |c| && n <= |c'|
    && forall i: nat {:trigger c'[i]} :: i < n ==> c'[i] == c[i] || (c[i].LoadNil? && c'[i].LoadNil?)
  }

  /** Code is added at the end, and no jump in it waits for a target. */
  ghost predicate Appended(c: Code, c': Code, a: ICode, a': ICode) {
    && Kept(c, c', |c|) && Kept(a, a', |a|)
    && forall i: nat {:trigger a'[i]} :: |a| <= i < |a'| ==> a'[i] != Jmp(Pending)
  }

  lemma ShowsChange(code: Code, abs: ICode, i: nat, x: Instr<Dest>)
    requires Shows(code, abs) && i < |code| && x != Jmp(Pending)
    ensures Shows(code[i := Word(x, i)], abs[i := x])
  {
  }

  /** The first `n` jumps of a list have got their targets. */
  ghost predicate Patched(abs: ICode, s: seq<nat>, n: nat)
    requires n <= |s|
  {
    forall i: nat {:trigger s[i]} :: i < n ==> s[i] < |abs| && abs[s[i]].Jmp? && abs[s[i]] != Jmp(Pending)
  }

  lemma PatchedStay(c: ICode, c': ICode, s: seq<nat>, n: nat)
    requires n < |s| && Patched(c, s, n) && Only(c, c', [s[n]]) && NoDup(s) && s[n] < |c|
    requires c'[s[n]].Jmp? && c'[s[n]] != Jmp(Pending)
    ensures Patched(c', s, n + 1)
  {
  }

  lemma PendingsStay(c: ICode, c': ICode, l: seq<nat>, s: seq<nat>)
    requires Pendings(c, l) && Only(c, c', s) && Apart(l, s)
    ensures Pendings(c', l)
  {
  }

  lemma ThreadsStay(c: Code, c': Code, head: int, l: seq<nat>, s: seq<nat>)
    requires Threads(c, head, l) && Only(c, c', s) && Apart(l, s)
    ensures Threads(c', head, l)
  {
    ThreadsHead(c, head, l);
    forall j | j in l && j < |c| ensures c'[j] == c[j] { assert c[j].Jmp?; }
    ThreadsFrame(c, c', head, l);
  }

  lemma OnlyMore<J(!new)>(c: seq<Instr<J>>, c': seq<Instr<J>>, c'': seq<Instr<J>>, l: seq<nat>, node: nat)
    requires Only(c, c', l) && Only(c', c'', [node]) && node in l
    ensures Only(c, c'', l)
  {
    forall i: nat | i < |c|
      ensures i !in l && (i + 1 !in l || !c[i].IsTest()) ==> c''[i] == c[i]
      ensures i !in l ==> c''[i].IsTest() == c[i].IsTest()
      ensures i in l ==> c''[i].Jmp?
    {
      assert c'[i] == c'[i];
    }
  }

  lemma OnlyItself<J(!new)>(c: seq<Instr<J>>, l: seq<nat>)
    requires forall j :: j in l ==> j < |c| && c[j].Jmp?
    ensures Only(c, c, l)
  {
  }

  lemma SingleList(code: Code, fj: int)
    requires fj == NO_JUMP || (0 <= fj < |code| && code[fj] == Jmp(NO_JUMP))
    ensures var s: seq<nat> := if fj == NO_JUMP then [] else [fj]; Threads(code, fj, s) && NoDup(s)
  {
    if fj != NO_JUMP { assert [fj as nat][1..] == []; }
  }

  /** Code was added, and its jumps were patched: the code before it stays. */
  lemma OnlyAfter(c: Code, a: ICode, c1: Code, a1: ICode, c2: Code, a2: ICode, s: seq<nat>)
    requires Shows(c, a) && Shows(c1, a1) && Closed(a)
    requires c <= c1 && a <= a1 && Only(c1, c2, s) && Only(a1, a2, s)
    requires Patched(a2, s, |s|) && forall j :: j in s ==> |a| <= j
    requires forall i: nat {:trigger a1[i]} :: |a| <= i < |a1| && a1[i] == Jmp(Pending) ==> i in s
    ensures Appended(c, c2, a, a2)
  {
    forall i: nat | i < |a| ensures c2[i] == c[i] && a2[i] == a[i] {
      assert c1[i] == c[i] && a1[i] == a[i];
    }
    forall i: nat | |a| <= i < |a2| ensures a2[i] != Jmp(Pending) {
      assert a2[i].Jmp? && i !in s ==> a2[i] == a1[i];
    }
  }

  lemma RestOf(s: seq<nat>, n: nat)
    requires n < |s|
    ensures s[n..] != [] && s[n..][0] == s[n] && s[n] in s && s[n] in s[n..] && s[n..][1..] == s[n + 1..]
    ensures forall j :: j in s[n + 1..] ==> j in s[n..]
    ensures NoDup(s) ==> NoDup(s[n..]) && s[n] !in s[n + 1..] && Apart(s[n + 1..], [s[n]])
  {
  }

  lemma PendingsPart(a: ICode, l: seq<nat>, m: seq<nat>)
    requires Pendings(a, l) && forall j :: j in m ==> j in l
    ensures Pendings(a, m)
  {
  }

  lemma PendingsRest(a: ICode, s: seq<nat>, n: nat)
    requires n < |s| && Pendings(a, s[n..])
    ensures Pendings(a, s[n + 1..])
  {
    RestOf(s, n);
    PendingsPart(a, s[n..], s[n + 1..]);
  }

  /** A change of the test before a jump leaves every list, and what waits. */
  lemma TestChanged(c: Code, c': Code, a: ICode, a': ICode, node: nat, head: int, l: seq<nat>)
    requires Only(c, c', [node]) && Only(a, a', [node]) && node < |c| == |a| && c'[node] == c[node] && a'[node] == a[node]
    requires Threads(c, head, l)
    ensures Threads(c', head, l) && (Pendings(a, l) ==> Pendings(a', l))
  {
    ThreadsHead(c, head, l);
    forall j | j in l ensures c'[j] == c[j] && (a[j] == Jmp(Pending) ==> a'[j] == a[j]) {
      assert c[j].Jmp?;
    }
    ThreadsFrame(c, c', head, l);
  }

  class FuncState {
    var code: Code
    var k: seq<Value>
    var freereg: nat
    var lasttarget: nat
    const nvars: nat
    ghost var abs: Gen

    /** The state stands for `abs`, at any moment. */
    ghost predicate Means()
      reads this
    {
      && Shows(code, abs.code) && |code| == |abs.code|
      && k == abs.k && freereg == abs.freereg && lasttarget == abs.lasttarget && nvars == abs.nvars
    }

    ghost predicate Valid()
      reads this
    {
      Means() && Closed(abs.code)
    }

    constructor (nvars: nat)
      ensures Valid() && abs == Gen([], [], nvars, 0, nvars)
    {
      code, k, freereg, lasttarget := [], [], nvars, 0;
      this.nvars := nvars;
      abs := Gen([], [], nvars, 0, nvars);
    }

    // ----- lists of jumps -----

    /** `luaK_concat` */
    method Concat(l1: int, l2: int, ghost s1: seq<nat>, ghost s2: seq<nat>) returns (r: Res<int>)
      requires Valid() && Threads(code, l1, s1) && Threads(code, l2, s2)
      requires NoDup(s1) && Apart(s1, s2) && Pendings(abs.code, s1)
      modifies this`code
      ensures match ExprGen.Concat(s1, s2)
              case Ok(s) => r.Ok? && Threads(code, r.value, s)
              case Fail(e) => r == Fail(e)
      ensures Valid() && forall i: nat {:trigger code[i]} :: i < |code| && i !in s1 ==> code[i] == old(code[i])
    {
      ThreadsHead(code, l1, s1);
      ThreadsHead(code, l2, s2);
      if l2 == NO_JUMP {
        assert s1 + s2 == s1;
        return Ok(l1);
      } else if l1 == NO_JUMP {
        assert s1 + s2 == s2;
        return Ok(l2);
      }
      var list := l1;
      ghost var n := 0;
      while LinkOf(code, list) != NO_JUMP
        invariant code == old(code)
        invariant 0 <= n < |s1| && list == s1[n] && Threads(code, list, s1[n..])
        decreases |s1| - n
      {
        ThreadsHead(code, list, s1[n..]);
        assert s1[n..][1..] == s1[n + 1..];
        ThreadsHead(code, LinkOf(code, list), s1[n + 1..]);
        list := LinkOf(code, list);
        n := n + 1;
      }
      assert s1[n..][1..] == s1[n + 1..];
      ThreadsHead(code, LinkOf(code, list), s1[n + 1..]);
      assert n == |s1| - 1 && list == s1[|s1| - 1];
      if !JumpFits(list, l2) { return Fail(JumpTooLong); }
      ThreadsJoin(code, l1, s1, s2);
      code := Link(code, list, l2);
      return Ok(l1);
    }

    /** `getjumpcontrol` */
    method JumpControl(pc: nat) returns (c: nat)
      requires Valid() && pc < |code|
      ensures c == Control(abs.code, pc) && c < |code| && code[c].IsTest() == abs.code[c].IsTest() && (c != pc ==> code[c].IsTest())
      ensures code[c].IsTest() ==> code[c] == Word(abs.code[c], c)
    {
      c := if pc >= 1 && code[pc - 1].IsTest() then pc - 1 else pc;
    }

    /** `patchtestreg` */
    method PatchTestReg(node: nat, reg: nat) returns (value: bool)
      requires Valid() && node < |code| && abs.code[node] == Jmp(Pending)
      modifies this`code, this`abs
      ensures Valid() && abs == old(abs).(code := ExprGen.PatchTestReg(old(abs).code, node, reg).0)
      ensures value == ExprGen.PatchTestReg(old(abs).code, node, reg).1
      ensures Only(old(code), code, [node]) && Only(old(abs).code, abs.code, [node])
      ensures code[node] == old(code[node]) && abs.code[node] == Jmp(Pending)
    {
      assert |code| == |abs.code|;
      hide Shows;
      var c := JumpControl(node);
      match code[c]
      case TestSet(_, b, cond) =>
        ghost var i: Instr<Dest> := if reg != NO_REG && reg != b then TestSet(reg, b, cond) else Test(b, cond);
        ShowsChange(code, abs.code, c, i);
        code := code[c := if reg != NO_REG && reg != b then TestSet(reg, b, cond) else Test(b, cond)];
        abs := abs.(code := abs.code[c := i]);
        return true;
      case _ => return false;
    }

    /** `removevalues` */
    method RemoveValues(list: int, ghost s: seq<nat>)
      requires Valid() && Threads(code, list, s) && NoDup(s) && Pendings(abs.code, s)
      modifies this`code, this`abs
      ensures Valid() && abs == old(abs).(code := ExprGen.RemoveValues(old(abs).code, s))
      ensures Only(old(code), code, s) && Only(old(abs).code, abs.code, s)
      ensures Pendings(abs.code, s) && Threads(code, list, s)
    {
      hide ExprGen.PatchTestReg, Word, Shows, NoDup, Closed, Only;
      var l := list;
      ghost var n := 0;
      ThreadsHead(code, list, s);
      OnlyItself(code, s);
      OnlyItself(abs.code, s);
      while l != NO_JUMP
        invariant n <= |s| && Valid() && Threads(code, l, s[n..]) && Threads(code, list, s) && Pendings(abs.code, s)
        invariant abs == old(abs).(code := abs.code)
        invariant ExprGen.RemoveValues(abs.code, s[n..]) == ExprGen.RemoveValues(old(abs).code, s)
        invariant Only(old(code), code, s) && Only(old(abs).code, abs.code, s)
        decreases |s| - n
      {
        ThreadsHead(code, l, s[n..]);
        RestOf(s, n);
        label L:
        var _ := PatchTestReg(l, NO_REG);
        TestChanged(old@L(code), code, old@L(abs).code, abs.code, l, l, s[n..]);
        TestChanged(old@L(code), code, old@L(abs).code, abs.code, l, list, s);
        OnlyMore(old(code), old@L(code), code, s, l);
        OnlyMore(old(abs).code, old@L(abs).code, abs.code, s, l);
        l := LinkOf(code, l);
        n := n + 1;
      }
      ThreadsHead(code, l, s[n..]);
    }

    /** `need_value` */
    method NeedValue(list: int, ghost s: seq<nat>) returns (r: bool)
      requires Valid() && Threads(code, list, s)
      ensures r == ExprGen.NeedValue(abs.code, s)
    {
      var l := list;
      ghost var n := 0;
      while l != NO_JUMP
        invariant n <= |s| && Threads(code, l, s[n..])
        invariant forall j :: j in s[..n] ==> Fetch(abs.code, Control(abs.code, j)).TestSet?
        decreases |s| - n
      {
        ThreadsHead(code, l, s[n..]);
        RestOf(s, n);
        assert s[..n + 1] == s[..n] + [s[n]];
        var c := JumpControl(l);
        if !code[c].TestSet? { return true; }
        l := LinkOf(code, l);
        n := n + 1;
      }
      ThreadsHead(code, l, s[n..]);
      assert s[..n] == s;
      return false;
    }

    /** One turn of the loop of `patchlistaux` */
    method PatchJump(node: nat, vtarget: int, reg: nat, dtarget: int) returns (r: Res<()>)
      requires Valid() && node < |code| && abs.code[node] == Jmp(Pending)
      modifies this`code, this`abs
      ensures match ExprGen.PatchJump(old(abs).code, node, vtarget, reg, dtarget)
              case Ok(c) => r.Ok? && abs == old(abs).(code := c)
              case Fail(e) => r == Fail(e)
      ensures Valid() && Only(old(code), code, [node]) && Only(old(abs).code, abs.code, [node])
      ensures r.Ok? ==> abs.code[node].Jmp? && abs.code[node] != Jmp(Pending)
    {
      hide ExprGen.PatchTestReg, Shows, LinkOf, Control;
      var value := PatchTestReg(node, reg);
      var target := if value then vtarget else dtarget;
      if !JumpFits(node, target) { return Fail(JumpTooLong); }
      ShowsChange(code, abs.code, node, Jmp(To(target)));
      code := Link(code, node, target);
      abs := abs.(code := abs.code[node := Jmp(To(target))]);
      return Ok(());
    }

    /** `patchlistaux` */
    method PatchListAux(list: int, vtarget: int, reg: nat, dtarget: int, ghost s: seq<nat>) returns (r: Res<()>)
      requires Valid() && Threads(code, list, s) && NoDup(s) && Pendings(abs.code, s)
      modifies this`code, this`abs
      ensures match PatchList(old(abs).code, s, vtarget, reg, dtarget)
              case Ok(c) => r.Ok? && abs == old(abs).(code := c)
              case Fail(e) => r == Fail(e)
      ensures Valid() && Only(old(code), code, s) && Only(old(abs).code, abs.code, s)
      ensures r.Ok? ==> Patched(abs.code, s, |s|)
    {
      hide ExprGen.PatchTestReg, ExprGen.PatchJump, Word, Shows, Only, NoDup, Closed;
      var l := list;
      ghost var n := 0;
      ThreadsHead(code, list, s);
      OnlyItself(code, s);
      OnlyItself(abs.code, s);
      while l != NO_JUMP
        invariant n <= |s| && Valid() && Threads(code, l, s[n..]) && Pendings(abs.code, s[n..])
        invariant abs == old(abs).(code := abs.code)
        invariant PatchList(abs.code, s[n..], vtarget, reg, dtarget) == PatchList(old(abs).code, s, vtarget, reg, dtarget)
        invariant Only(old(code), code, s) && Only(old(abs).code, abs.code, s)
        invariant Patched(abs.code, s, n)
        decreases |s| - n
      {
        ThreadsHead(code, l, s[n..]);
        RestOf(s, n);
        label L:
        var next := LinkOf(code, l);
        var one := PatchJump(l, vtarget, reg, dtarget);
        OnlyMore(old(code), old@L(code), code, s, l);
        OnlyMore(old(abs).code, old@L(abs).code, abs.code, s, l);
        if one.Fail? { return Fail(one.error); }
        PendingsRest(old@L(abs).code, s, n);
        PendingsStay(old@L(abs).code, abs.code, s[n + 1..], [l]);
        ThreadsStay(old@L(code), code, next, s[n + 1..], [l]);
        PatchedStay(old@L(abs).code, abs.code, s, n);
        l := next;
        n := n + 1;
      }
      ThreadsHead(code, l, s[n..]);
      return Ok(());
    }

    /** `luaK_getlabel` */
    method GetLabel() returns (pc: nat)
      requires Valid()
      modifies this`lasttarget, this`abs
      ensures Valid() && abs == Label(old(abs)) && pc == |code|
    {
      lasttarget := |code|;
      abs := Label(abs);
      return |code|;
    }

    /** `luaK_patchtohere` */
    method PatchToHere(list: int, ghost s: seq<nat>) returns (r: Res<()>)
      requires Valid() && Threads(code, list, s) && NoDup(s) && Pendings(abs.code, s)
      modifies this`code, this`abs, this`lasttarget
      ensures match ExprGen.PatchToHere(old(abs), s)
              case Ok(g) => r.Ok? && abs == g
              case Fail(e) => r == Fail(e)
      ensures Valid() && Only(old(code), code, s) && Only(old(abs).code, abs.code, s)
      ensures r.Ok? ==> Patched(abs.code, s, |s|)
    {
      var here := GetLabel();
      r := PatchListAux(list, here, NO_REG, here, s);
    }

    // ----- instructions, constants, registers -----

    /** `luaK_code` for anything but a test, which never comes without its jump */
    method Emit(i: Instr<Dest>)
      requires Valid() && !i.IsTest()
      modifies this`code, this`abs
      ensures Valid() && abs == ExprGen.Emit(old(abs), i) && code == old(code) + [Word(i, |old(code)|)]
    {
      code := code + [Word(i, |code|)];
      abs := ExprGen.Emit(abs, i);
    }

    /** `condjump`: a test and its jump. Returns the position of the jump. */
    method CondJump(test: Instr<Dest>) returns (pc: nat)
      requires Means() && test.IsTest()
      modifies this`code, this`abs
      ensures Valid() && abs == ExprGen.CondJump(old(abs), test) && pc == |code| - 1 == |old(code)| + 1
      ensures code == old(code) + [Word(test, |old(code)|), Jmp(NO_JUMP)]
    {
      code := code + [Word(test, |code|)];
      code := code + [Jmp(NO_JUMP)];
      abs := ExprGen.CondJump(abs, test);
      return |code| - 1;
    }

    /** `removelastinstruction` on an OP_NOT: what comes before may be a test again. */
    method RemoveLast()
      requires Valid()
      modifies this`code, this`abs
      ensures Means() && abs == ExprGen.RemoveLast(old(abs))
      ensures code == if old(code) == [] then [] else old(code)[..|old(code)| - 1]
    {
      if code != [] { code := code[..|code| - 1]; }
      abs := ExprGen.RemoveLast(abs);
    }

    /** `SETARG_A` of the instruction of a relocatable expression */
    method SetDest(pc: nat, reg: nat)
      requires Valid() && pc < |code| && abs.code[pc].NotOp?
      modifies this`code, this`abs
      ensures Valid() && abs == old(abs).(code := ExprGen.SetDest(old(abs).code, pc, reg))
      ensures old(code[pc]).NotOp? && code == old(code)[pc := NotOp(reg, old(code[pc]).b)]
    {
      ShowsChange(code, abs.code, pc, NotOp(reg, code[pc].b));
      code := code[pc := NotOp(reg, code[pc].b)];
      abs := abs.(code := ExprGen.SetDest(abs.code, pc, reg));
    }

    /** The change that `negatecondition` makes for the jump at `pc` */
    method Negate(pc: nat)
      requires Valid() && pc < |code| && abs.code[pc] == Jmp(Pending)
      modifies this`code, this`abs
      ensures Valid() && abs == NegateCondition(old(abs), ExprGen.ExpDesc(VJmp(pc), [], []))
      ensures OneTest(old(code), code, pc) && OneTest(old(abs).code, abs.code, pc)
    {
      var c := JumpControl(pc);
      match code[c]
      case Cmp(op, a, b, isfloat, cond) =>
        ShowsChange(code, abs.code, c, Cmp(op, a, b, isfloat, !cond));
        code := code[c := Cmp(op, a, b, isfloat, !cond)];
        abs := abs.(code := abs.code[c := Cmp(op, a, b, isfloat, !cond)]);
      case _ =>
    }

    /** `luaK_nil` for one register */
    method CodeNil(reg: nat)
      requires Valid()
      modifies this`code, this`abs
      ensures Valid() && abs == EmitNil(old(abs), reg) && Appended(old(code), code, old(abs).code, abs.code)
    {
      if |code| > lasttarget && code[|code| - 1].LoadNil? {
        var p := code[|code| - 1];
        if (p.a <= reg <= p.a + p.n + 1) || (reg <= p.a <= reg + 1) {
          var from := if p.a < reg then p.a else reg;
          var last := if p.a + p.n > reg then p.a + p.n else reg;
          ShowsChange(code, abs.code, |code| - 1, LoadNil(from, last - from));
          code := code[|code| - 1 := LoadNil(from, last - from)];
          abs := EmitNil(abs, reg);
          return;
        }
      }
      Emit(LoadNil(reg, 0));
    }

    /** `luaK_codek` */
    method CodeK(reg: nat, idx: nat)
      requires Valid()
      modifies this`code, this`abs
      ensures Valid() && abs == EmitK(old(abs), reg, idx) && Appended(old(code), code, old(abs).code, abs.code)
    {
      if idx <= MAXARG_BX {
        Emit(LoadK(reg, idx));
      } else {
        Emit(LoadKX(reg));
        Emit(ExtraArg(idx));
      }
    }

    /** `addk` */
    method AddK(v: Value) returns (r: Res<nat>)
      requires Valid()
      modifies this`k, this`abs
      ensures match ExprGen.AddK(old(abs), v)
              case Ok(p) => r == Ok(p.1) && abs == p.0
              case Fail(e) => r == Fail(e)
      ensures Valid() && abs.code == old(abs).code
    {
      var i := IndexOf(k, v);
      if i < |k| { return Ok(i); }
      if |k| >= MAXARG_AX { return Fail(TooManyConstants); }
      k := k + [v];
      abs := abs.(k := abs.k + [v]);
      return Ok(i);
    }

    /** `luaK_int` */
    method CodeInt(reg: nat, i: int) returns (r: Res<()>)
      requires Valid()
      modifies this`code, this`k, this`abs
      ensures match EmitInt(old(abs), reg, i)
              case Ok(g) => r.Ok? && abs == g
              case Fail(e) => r == Fail(e)
      ensures Valid() && Appended(old(code), code, old(abs).code, abs.code)
    {
      if FitsBx(i) {
        Emit(LoadI(reg, i));
      } else {
        var idx := AddK(Int(i));
        if idx.Fail? { return Fail(idx.error); }
        CodeK(reg, idx.value);
      }
      return Ok(());
    }

    /** `luaK_float` */
    method CodeFloat(reg: nat, x: real) returns (r: Res<()>)
      requires Valid()
      modifies this`code, this`k, this`abs
      ensures match EmitFlt(old(abs), reg, x)
              case Ok(g) => r.Ok? && abs == g
              case Fail(e) => r == Fail(e)
      ensures Valid() && Appended(old(code), code, old(abs).code, abs.code)
    {
      var fi := FltToInt(x);
      if fi.Some? && FitsBx(fi.value) {
        Emit(LoadF(reg, fi.value));
      } else {
        var idx := AddK(Flt(x));
        if idx.Fail? { return Fail(idx.error); }
        CodeK(reg, idx.value);
      }
      return Ok(());
    }

    /** `luaK_reserveregs` */
    method ReserveRegs(n: nat) returns (r: Res<()>)
      requires Valid()
      modifies this`freereg, this`abs
      ensures match Reserve(old(abs), n)
              case Ok(g) => r.Ok? && abs == g
              case Fail(e) => r == Fail(e)
      ensures Valid() && abs.code == old(abs).code
    {
      if freereg + n >= MAXREGS { return Fail(TooManyRegisters); }
      freereg := freereg + n;
      abs := abs.(freereg := freereg);
      return Ok(());
    }

    /** `freereg` */
    method FreeReg(reg: int)
      requires Valid()
      modifies this`freereg, this`abs
      ensures Valid() && abs == ExprGen.FreeReg(old(abs), reg) && abs.code == old(abs).code
    {
      if reg >= nvars && freereg > 0 { freereg := freereg - 1; }
      abs := ExprGen.FreeReg(abs, reg);
    }

    /** `code_loadbool`, for both booleans. Returns where they are. */
    method LoadBoth(reg: nat) returns (pf: nat, pt: nat)
      requires Valid()
      modifies this`code, this`abs, this`lasttarget
      ensures Valid() && pf == |old(code)| && pt == pf + 1
      ensures abs == ExprGen.Emit(Label(ExprGen.Emit(Label(old(abs)), LFalseSkip(reg))), LoadTrue(reg))
      ensures code == old(code) + [LFalseSkip(reg), LoadTrue(reg)]
    {
      pf := GetLabel();
      Emit(LFalseSkip(reg));
      pt := GetLabel();
      Emit(LoadTrue(reg));
    }

    /** The middle of `exp2reg`: loads of both booleans, with a jump around them unless the expression is
        itself a test. */
    method LoadBools(reg: nat, isTest: bool) returns (r: Res<(int, int)>)
      requires Valid()
      modifies this`code, this`abs, this`lasttarget
      ensures match ExprGen.LoadBools(old(abs), reg, isTest)
              case Ok(p) => r == Ok((p.1, p.2)) && abs == p.0
              case Fail(e) => r == Fail(e)
      ensures r.Ok? ==> Valid() && Appended(old(code), code, old(abs).code, abs.code)
    {
      hide Shows, PatchList, NoDup, Patched, Only, Appended, Closed;
      var fj := NO_JUMP;
      ghost var s := [];
      if !isTest {
        fj := |code|;
        s := [|code|];
        Emit(Jmp(Pending));
        SingleList(code, fj);
      }
      var pf, pt := LoadBoth(reg);
      SingleList(code, fj);
      label L:
      var done := PatchToHere(fj, s);
      if done.Fail? { return Fail(done.error); }
      OnlyAfter(old(code), old(abs).code, old@L(code), old@L(abs).code, code, abs.code, s);
      return Ok((pf, pt));
    }
  }

  // ----- the machine -----

  /** One instruction of the real code, where a jump adds its offset. */
  function MachineStep(w: World, k: seq<Value>, code: Code, pc: nat, r: Regs): Step
    requires pc < |code|
  {
    var i := code[pc];
    if i.IsTest() then
      match Condition(w, k, i, r)
      case None => Stop(Raise)
      case Some(c) => if c != i.cond then Next(pc + 2, r) else Next(pc + 1, Load(k, i, r))
    else
      match i
      case Jmp(j) => Next(pc + 1 + j, r)
      case LFalseSkip(_) => Next(pc + 2, Load(k, i, r))
      case LoadKX(a) =>
        if pc + 1 < |code| && code[pc + 1].ExtraArg?
        then Next(pc + 2, Put(r, a, Const(k, code[pc + 1].ax)))
        else Stop(Stuck)
      case ExtraArg(_) => Stop(Stuck)
      case _ => Next(pc + 1, Load(k, i, r))
  }

  /** A run of the real code until it leaves it at the end. */
  function Machine(w: World, k: seq<Value>, code: Code, pc: nat, r: Regs): Outcome
    decreases |code| - pc
  {
    if pc > |code| then Stuck
    else if pc == |code| then Fall(r)
    else
      match MachineStep(w, k, code, pc, r)
      case Stop(o) => o
      case Next(p, s) => if pc < p <= |code| then Machine(w, k, code, p, s) else Stuck
  }

  /** Code in which every jump has its target runs as the abstract code does. */
  lemma {:induction false} MachineRuns(w: World, k: seq<Value>, code: Code, abs: ICode, pc: nat, r: Regs)
    requires Shows(code, abs) && Jmp(Pending) !in abs
    ensures Machine(w, k, code, pc, r) == Exec(w, k, abs, pc, r)
    decreases |code| - pc
  {
    if pc < |code| {
      assert abs[pc] in abs && code[pc] == Word(abs[pc], pc);
      if pc + 1 < |code| { assert abs[pc + 1] in abs && code[pc + 1] == Word(abs[pc + 1], pc + 1); }
      assert MachineStep(w, k, code, pc, r) == StepAt(w, k, abs, pc, r);
      match StepAt(w, k, abs, pc, r)
      case Stop(_) =>
      case Next(p, s) => if pc < p <= |code| { MachineRuns(w, k, code, abs, p, s); }
    }
  }
}
