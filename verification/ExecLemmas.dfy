/** How a run changes when code is appended, when pending jumps get their targets, and when tests
    lose or negate their values. */
module ExecLemmas {
  import opened Wrappers
  import opened LuaOps
  import opened ExprGen

  /** The fixed surroundings of a proof: the program, the constants the function ends up with, and
      the place and registers an arbitrary run starts from. */
  datatype Env = Env(w: World, k: seq<Value>, q: nat, r: Regs)

  function Run(c: Env, code: ICode): Outcome {
    Exec(c.w, c.k, code, c.q, c.r)
  }

  /** What generated code looks like: targets lie ahead, at most at the last label and never between a
      test and its jump; tests, LFALSESKIP and LOADKX have their second halves. */
  ghost predicate ShapedAt(code: ICode, lt: nat, i: nat)
    requires i < |code|
  {
    match code[i]
    case Jmp(To(t)) => i < t <= lt <= |code| && !code[t - 1].IsTest()
    case LFalseSkip(_) => i + 1 < |code| && code[i + 1].LoadTrue?
    case LoadKX(_) => i + 1 < |code| && code[i + 1].ExtraArg?
    case _ => code[i].IsTest() ==> i + 1 < |code| && code[i + 1].Jmp?
  }

  /** The code from `q` on; what comes before it may be anything, loops included. */
  ghost predicate Shaped(code: ICode, lt: nat, q: nat) {
    lt <= |code| && forall i: nat :: q <= i < |code| ==> ShapedAt(code, lt, i)
  }

  /** A jump waiting in a patch list, with the test that controls it. */
  ghost predicate Waiting(code: ICode, j: nat) {
    1 <= j < |code| && code[j] == Jmp(Pending) && code[j - 1].IsTest()
  }

  lemma {:induction false} ExecAppend(w: World, k: seq<Value>, code: ICode, more: ICode, lt: nat, pc: nat, r: Regs)
    requires Shaped(code, lt, pc) && pc <= |code|
    ensures Exec(w, k, code + more, pc, r)
         == match Exec(w, k, code, pc, r)
            case Fall(s) => Exec(w, k, code + more, |code|, s)
            case o => o
    decreases |code| - pc
  {
    if pc < |code| {
      assert ShapedAt(code, lt, pc);
      assert StepAt(w, k, code + more, pc, r) == StepAt(w, k, code, pc, r);
      match StepAt(w, k, code, pc, r)
      case Stop(_) =>
      case Next(p, s) => ExecAppend(w, k, code, more, lt, p, s);
    }
  }

  lemma {:induction false} ExitIsPending(w: World, k: seq<Value>, code: ICode, pc: nat, r: Regs)
    ensures var o := Exec(w, k, code, pc, r);
            o.Exit? ==> pc <= o.at < |code| && code[o.at] == Jmp(Pending)
    decreases |code| - pc
  {
    if pc < |code| {
      match StepAt(w, k, code, pc, r)
      case Stop(_) =>
      case Next(p, s) => if pc < p <= |code| { ExitIsPending(w, k, code, p, s); }
    }
  }

  /** What a jump in a patch list does to the registers once it is patched to put values in `reg`. */
  function Assign(code: ICode, node: nat, reg: nat, r: Regs): Regs {
    match Fetch(code, Control(code, node))
    case TestSet(_, b, _) => if reg != NO_REG && reg != b then Put(r, reg, Get(r, b)) else r
    case _ => r
  }

  function TargetOf(code: ICode, node: nat, vtarget: int, dtarget: int): int {
    if Fetch(code, Control(code, node)).TestSet? then vtarget else dtarget
  }

  lemma PatchJumpShape(code: ICode, lt: nat, node: nat, vtarget: int, reg: nat, dtarget: int, lt': nat, q: nat)
    requires Shaped(code, lt, q) && Waiting(code, node)
    requires PatchJump(code, node, vtarget, reg, dtarget).Ok?
    requires lt <= lt' <= |code|
    requires var t := TargetOf(code, node, vtarget, dtarget); node < t <= lt' && !code[t - 1].IsTest()
    ensures (var code' := PatchJump(code, node, vtarget, reg, dtarget).value;
            && |code'| == |code|
            && Shaped(code', lt', q)
            && (forall i: nat :: i < |code| && i != node && i != node - 1 ==> code'[i] == code[i])
            && code'[node] == Jmp(To(TargetOf(code, node, vtarget, dtarget)))
            && code'[node - 1].IsTest() && code'[node - 1].Cmp? == code[node - 1].Cmp?)
  {
    var code' := PatchJump(code, node, vtarget, reg, dtarget).value;
    forall i: nat | q <= i < |code'| ensures ShapedAt(code', lt', i) {
      assert ShapedAt(code, lt, i);
    }
  }

  lemma {:induction false} PatchJumpExec(w: World, k: seq<Value>, code: ICode, lt: nat, node: nat, vtarget: int,
                                         reg: nat, dtarget: int, lt': nat, pc: nat, r: Regs)
    requires Shaped(code, lt, pc) && Waiting(code, node) && pc != node
    requires PatchJump(code, node, vtarget, reg, dtarget).Ok?
    requires lt <= lt' <= |code|
    requires var t := TargetOf(code, node, vtarget, dtarget); node < t <= lt' && !code[t - 1].IsTest()
    ensures var code' := PatchJump(code, node, vtarget, reg, dtarget).value;
            Exec(w, k, code', pc, r) == (
            match Exec(w, k, code, pc, r)
            case Exit(j, s) =>
              if j == node then Exec(w, k, code', TargetOf(code, node, vtarget, dtarget), Assign(code, node, reg, s))
              else Exit(j, s)
            case o => o)
    decreases |code| - pc
  {
    PatchJumpShape(code, lt, node, vtarget, reg, dtarget, lt', pc);
    var code' := PatchJump(code, node, vtarget, reg, dtarget).value;
    var t := TargetOf(code, node, vtarget, dtarget);
    if pc < |code| {
      assert ShapedAt(code, lt, pc);
      if pc == node - 1 {
        if Condition(w, k, code[pc], r) == Some(code[pc].cond) {
          assert StepAt(w, k, code', pc, r) == Next(node, Assign(code, node, reg, r));
          assert StepAt(w, k, code', node, Assign(code, node, reg, r)) == Next(t, Assign(code, node, reg, r));
        } else {
          assert StepAt(w, k, code', pc, r) == StepAt(w, k, code, pc, r);
        }
      } else {
        assert StepAt(w, k, code', pc, r) == StepAt(w, k, code, pc, r);
      }
      match StepAt(w, k, code, pc, r)
      case Stop(_) =>
      case Next(p, s) =>
        assert p != node;
        PatchJumpExec(w, k, code, lt, node, vtarget, reg, dtarget, lt', p, s);
    }
  }

  ghost predicate NoDup(l: seq<nat>) {
    forall i, j :: 0 <= i < j < |l| ==> l[i] != l[j]
  }

  /** Every jump of the list waits for its target, and the target it would get is a possible one. */
  ghost predicate Patchable(code: ICode, list: seq<nat>, vtarget: int, dtarget: int, lt: nat) {
    && lt <= |code| && NoDup(list)
    && forall j :: j in list ==>
         && Waiting(code, j)
         && var t := TargetOf(code, j, vtarget, dtarget); j < t <= lt && !code[t - 1].IsTest()
  }

  /** The jumps of a patched list, and the tests that control them, are the only instructions changed. */
  ghost predicate OnlyAt(code: ICode, code': ICode, list: seq<nat>) {
    && |code'| == |code|
    && (forall i: nat {:trigger code'[i]} :: i < |code| && i !in list && i + 1 !in list ==> code'[i] == code[i])
    && (forall i: nat {:trigger code'[i]} :: i < |code| ==> code'[i].IsTest() == code[i].IsTest())
  }

  lemma PatchFirst(code: ICode, lt: nat, list: seq<nat>, vtarget: int, reg: nat, dtarget: int, lt': nat, q: nat)
    requires Shaped(code, lt, q) && lt <= lt' && list != [] && Patchable(code, list, vtarget, dtarget, lt')
    requires PatchJump(code, list[0], vtarget, reg, dtarget).Ok?
    ensures var code1 := PatchJump(code, list[0], vtarget, reg, dtarget).value;
            Shaped(code1, lt', q) && Patchable(code1, list[1..], vtarget, dtarget, lt') && OnlyAt(code, code1, list[..1])
            && |code1| == |code|
            && (forall j :: j in list[1..] ==>
                  1 <= j < |code| && Control(code, j) == j - 1 && Control(code1, j) == j - 1 && code1[j - 1] == code[j - 1])
  {
    var code1 := PatchJump(code, list[0], vtarget, reg, dtarget).value;
    PatchJumpShape(code, lt, list[0], vtarget, reg, dtarget, lt', q);
    assert list[0] in list[..1];
    forall j | j in list[1..]
      ensures Waiting(code1, j) && code1[j - 1] == code[j - 1] && j < |code|
      ensures var t := TargetOf(code1, j, vtarget, dtarget); j < t <= lt' && !code1[t - 1].IsTest()
    {
      assert j in list && j != list[0];
      assert Waiting(code, j) && Waiting(code, list[0]);
      assert j - 1 != list[0] && list[0] - 1 != j;
    }
  }

  lemma {:induction false} PatchListShape(code: ICode, lt: nat, list: seq<nat>, vtarget: int, reg: nat, dtarget: int,
                                          lt': nat, q: nat)
    requires Shaped(code, lt, q) && lt <= lt' && Patchable(code, list, vtarget, dtarget, lt')
    requires PatchList(code, list, vtarget, reg, dtarget).Ok?
    ensures var code' := PatchList(code, list, vtarget, reg, dtarget).value;
            Shaped(code', lt', q) && OnlyAt(code, code', list)
    decreases list
  {
    if list == [] {
      forall i: nat | q <= i < |code| ensures ShapedAt(code, lt', i) { assert ShapedAt(code, lt, i); }
    } else {
      PatchFirst(code, lt, list, vtarget, reg, dtarget, lt', q);
      var code1 := PatchJump(code, list[0], vtarget, reg, dtarget).value;
      PatchListShape(code1, lt', list[1..], vtarget, reg, dtarget, lt', q);
      assert list == [list[0]] + list[1..];
    }
  }

  /** Patching a whole list: a run that stopped at one of its jumps goes on from the jump's target with
      the value that its test carried. */
  lemma {:induction false} PatchListExec(w: World, k: seq<Value>, code: ICode, lt: nat, list: seq<nat>, vtarget: int,
                                         reg: nat, dtarget: int, lt': nat, pc: nat, r: Regs)
    requires Shaped(code, lt, pc) && lt <= lt' && Patchable(code, list, vtarget, dtarget, lt') && pc !in list
    requires PatchList(code, list, vtarget, reg, dtarget).Ok?
    ensures var code' := PatchList(code, list, vtarget, reg, dtarget).value;
            Exec(w, k, code', pc, r) == (
            match Exec(w, k, code, pc, r)
            case Exit(j, s) =>
              if j in list then Exec(w, k, code', TargetOf(code, j, vtarget, dtarget), Assign(code, j, reg, s))
              else Exit(j, s)
            case o => o)
    decreases list
  {
    hide Shaped, OnlyAt, Patchable, Waiting, TargetOf, Assign, Control, PatchJump;
    if list != [] {
      FirstPatchable(code, list, vtarget, dtarget, lt');
      var node := list[0];
      var code1 := PatchJump(code, node, vtarget, reg, dtarget).value;
      PatchFirst(code, lt, list, vtarget, reg, dtarget, lt', pc);
      PatchJumpExec(w, k, code, lt, node, vtarget, reg, dtarget, lt', pc, r);
      PatchListExec(w, k, code1, lt', list[1..], vtarget, reg, dtarget, lt', pc, r);
      ExitIsPending(w, k, code, pc, r);
      hide Exec;
      match Exec(w, k, code, pc, r)
      case Exit(j, s) =>
        if j == node {
          var t := TargetOf(code, node, vtarget, dtarget);
          TargetIsElsewhere(code, code1, list, vtarget, dtarget, lt', t);
          ShapedLater(code1, lt', pc, t);
          PatchListExec(w, k, code1, lt', list[1..], vtarget, reg, dtarget, lt', t, Assign(code, node, reg, s));
        } else {
          assert j in list <==> j in list[1..];
          if j in list { SameJump(code, code1, list, j, vtarget, dtarget, reg, s); }
        }
      case _ =>
    }
  }

  lemma ShapedLater(code: ICode, lt: nat, q: nat, q': nat)
    requires Shaped(code, lt, q) && q <= q'
    ensures Shaped(code, lt, q')
  {
  }

  lemma FirstPatchable(code: ICode, list: seq<nat>, vtarget: int, dtarget: int, lt: nat)
    requires Patchable(code, list, vtarget, dtarget, lt) && list != []
    ensures Waiting(code, list[0]) && list[0] in list && list[0] !in list[1..] && lt <= |code|
    ensures var t := TargetOf(code, list[0], vtarget, dtarget); list[0] < t <= lt && !code[t - 1].IsTest()
    ensures forall j :: j in list <==> j == list[0] || j in list[1..]
  {
    assert list == [list[0]] + list[1..];
  }

  /** A target is never a jump that waits: the instruction before it is no test. */
  lemma TargetIsElsewhere(code: ICode, code1: ICode, list: seq<nat>, vtarget: int, dtarget: int, lt: nat, t: nat)
    requires list != [] && OnlyAt(code, code1, list[..1]) && Patchable(code1, list[1..], vtarget, dtarget, lt)
    requires 1 <= t <= |code| && !code[t - 1].IsTest()
    ensures t !in list[1..]
  {
  }

  /** The other jumps go where they would have gone, with the same values. */
  lemma SameJump(code: ICode, code1: ICode, list: seq<nat>, j: nat, vtarget: int, dtarget: int, reg: nat, s: Regs)
    requires |code1| == |code| && 1 <= j < |code| && Control(code, j) == j - 1 && Control(code1, j) == j - 1
    requires code1[j - 1] == code[j - 1]
    ensures TargetOf(code1, j, vtarget, dtarget) == TargetOf(code, j, vtarget, dtarget)
    ensures Assign(code1, j, reg, s) == Assign(code, j, reg, s)
  {
  }

  // ----- instructions at the end of the code -----

  predicate Plain(i: Instr<Dest>) {
    !i.IsTest() && !i.Jmp? && !i.LFalseSkip? && !i.LoadKX? && !i.ExtraArg?
  }

  lemma ExecPlain(w: World, k: seq<Value>, code: ICode, lt: nat, i: Instr<Dest>, pc: nat, r: Regs)
    requires Shaped(code, lt, pc) && pc <= |code| && Plain(i)
    ensures Shaped(code + [i], lt, pc)
    ensures Exec(w, k, code + [i], pc, r) == (
            match Exec(w, k, code, pc, r)
            case Fall(s) => Fall(Load(k, i, s))
            case o => o)
  {
    ExecAppend(w, k, code, [i], lt, pc, r);
    forall x: nat | pc <= x < |code + [i]| ensures ShapedAt(code + [i], lt, x) {
      if x < |code| { assert ShapedAt(code, lt, x); }
    }
  }

  lemma ExecLoadKX(w: World, k: seq<Value>, code: ICode, lt: nat, a: nat, x: nat, pc: nat, r: Regs)
    requires Shaped(code, lt, pc) && pc <= |code|
    ensures var code' := code + [LoadKX(a), ExtraArg(x)];
            Shaped(code', lt, pc) && Exec(w, k, code', pc, r) == (
            match Exec(w, k, code, pc, r)
            case Fall(s) => Fall(Put(s, a, Const(k, x)))
            case o => o)
  {
    var code' := code + [LoadKX(a), ExtraArg(x)];
    ExecAppend(w, k, code, [LoadKX(a), ExtraArg(x)], lt, pc, r);
    forall y: nat | pc <= y < |code'| ensures ShapedAt(code', lt, y) {
      if y < |code| { assert ShapedAt(code, lt, y); }
    }
  }

  /** A test and its pending jump at the end: the run stops at the jump or falls through. */
  lemma ExecCondJump(w: World, k: seq<Value>, code: ICode, lt: nat, i: Instr<Dest>, pc: nat, r: Regs)
    requires Shaped(code, lt, pc) && pc <= |code| && i.IsTest()
    ensures var code' := code + [i, Jmp(Pending)];
            Shaped(code', lt, pc) && Exec(w, k, code', pc, r) == (
            match Exec(w, k, code, pc, r)
            case Fall(s) => (
              match Condition(w, k, i, s)
              case None => Raise
              case Some(b) => if b == i.cond then Exit(|code| + 1, s) else Fall(s))
            case o => o)
  {
    var code' := code + [i, Jmp(Pending)];
    ExecAppend(w, k, code, [i, Jmp(Pending)], lt, pc, r);
    forall y: nat | pc <= y < |code'| ensures ShapedAt(code', lt, y) {
      if y < |code| { assert ShapedAt(code, lt, y); }
    }
  }

  /** The code before the last instruction, or before a last test and its jump, is itself well shaped. */
  lemma ShapedPrefix(code: ICode, lt: nat, n: nat, q: nat)
    requires Shaped(code, lt, q) && lt <= n <= |code|
    requires n > q ==> Plain(code[n - 1]) || code[n - 1].Jmp? || code[n - 1].ExtraArg?
    ensures Shaped(code[..n], lt, q)
  {
    forall i: nat | q <= i < n ensures ShapedAt(code[..n], lt, i) { assert ShapedAt(code, lt, i); }
  }

  lemma PutNilTwice(s: Regs, a: nat, n: nat, a': nat, n': nat)
    requires a' <= a && a + n <= a' + n'
    ensures PutNil(PutNil(s, a, n), a', n') == PutNil(s, a', n')
  {
  }

  /** A LOADNIL that ends the code, with no label after it, can be widened. */
  lemma ExecWiderNil(w: World, k: seq<Value>, code: ICode, lt: nat, a: nat, n: nat, pc: nat, r: Regs)
    requires Shaped(code, lt, pc) && lt < |code| && pc < |code| && code[|code| - 1].LoadNil?
    requires var p := code[|code| - 1]; a <= p.a && p.a + p.n <= a + n
    ensures var code' := code[|code| - 1 := LoadNil(a, n)];
            Shaped(code', lt, pc) && Exec(w, k, code', pc, r) == (
            match Exec(w, k, code, pc, r)
            case Fall(s) => Fall(PutNil(s, a, n))
            case o => o)
    ensures var o := Exec(w, k, code, pc, r); var p := code[|code| - 1];
            o.Fall? ==> PutNil(o.r, p.a, p.n) == o.r
  {
    var m := |code| - 1;
    var p := code[m];
    var pre := code[..m];
    assert code == pre + [p] && code[m := LoadNil(a, n)] == pre + [LoadNil(a, n)];
    assert forall i: nat :: pc <= i < |code| ==> ShapedAt(code, lt, i);
    if m > pc { assert ShapedAt(code, lt, m - 1); }
    ShapedPrefix(code, lt, m, pc);
    ExecPlain(w, k, pre, lt, p, pc, r);
    ExecPlain(w, k, pre, lt, LoadNil(a, n), pc, r);
    var o := Exec(w, k, pre, pc, r);
    if o.Fall? {
      PutNilTwice(o.r, p.a, p.n, a, n);
      PutNilTwice(o.r, p.a, p.n, p.a, p.n);
    }
  }

  // ----- tests that lose their values -----

  /** `removevalues` changes a TESTSET into the TEST of the same register. */
  ghost predicate Devalued(i: Instr<Dest>, i': Instr<Dest>) {
    match i
    case TestSet(_, b, cond) => i' == Test(b, cond)
    case _ => i' == i
  }

  lemma {:induction false} DevalueExec(w: World, k: seq<Value>, code: ICode, lt: nat, node: nat, pc: nat, r: Regs)
    requires Shaped(code, lt, pc) && Waiting(code, node)
    ensures var code' := PatchTestReg(code, node, NO_REG).0;
            && |code'| == |code| && Shaped(code', lt, pc)
            && Devalued(code[node - 1], code'[node - 1])
            && (forall i: nat :: i < |code| && i != node - 1 ==> code'[i] == code[i])
            && Exec(w, k, code', pc, r) == Exec(w, k, code, pc, r)
    decreases |code| - pc
  {
    var code' := PatchTestReg(code, node, NO_REG).0;
    forall i: nat | pc <= i < |code'| ensures ShapedAt(code', lt, i) { assert ShapedAt(code, lt, i); }
    if pc < |code| {
      assert StepAt(w, k, code', pc, r) == StepAt(w, k, code, pc, r);
      match StepAt(w, k, code, pc, r)
      case Stop(_) =>
      case Next(p, s) => if pc < p <= |code| { DevalueExec(w, k, code, lt, node, p, s); }
    }
  }

  lemma {:induction false} RemoveValuesExec(w: World, k: seq<Value>, code: ICode, lt: nat, list: seq<nat>, pc: nat, r: Regs)
    requires Shaped(code, lt, pc) && NoDup(list) && forall j :: j in list ==> Waiting(code, j)
    ensures var code' := RemoveValues(code, list);
            && |code'| == |code| && Shaped(code', lt, pc)
            && (forall j :: j in list ==> 1 <= j < |code| && Devalued(code[j - 1], code'[j - 1]))
            && (forall i: nat :: i < |code| && i + 1 !in list ==> code'[i] == code[i])
            && Exec(w, k, code', pc, r) == Exec(w, k, code, pc, r)
    decreases list
  {
    if list != [] {
      var code1 := PatchTestReg(code, list[0], NO_REG).0;
      DevalueExec(w, k, code, lt, list[0], pc, r);
      forall j | j in list[1..] ensures j in list && j != list[0] && Waiting(code1, j) {
        assert Waiting(code, j);
      }
      RemoveValuesExec(w, k, code1, lt, list[1..], pc, r);
      assert list == [list[0]] + list[1..];
    }
  }
}
