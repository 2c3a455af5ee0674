/** The final pass of lcode.c over the code of a function: jumps to jumps are threaded in place, in whatever order the
    pass meets them, and returns learn what else they have to do. */
module Finish {
  // ----- instruction fields -----

  /** A 32-bit instruction, with the opcode in its first seven bits. */
  type Instruction = i: nat | i < 0x1_0000_0000 witness 0

  const OP_JMP := 56
  const OP_TAILCALL := 69
  const OP_RETURN := 70
  const OP_RETURN0 := 71
  const OP_RETURN1 := 72
  const MAXARG_SJ := 0x1FF_FFFF
  const OFFSET_SJ := 0xFF_FFFF

  function Opcode(i: Instruction): nat { i % 128 }
  function ArgSJ(i: Instruction): int { i / 128 - OFFSET_SJ }
  function ArgK(i: Instruction): nat { i / 0x8000 % 2 }
  function ArgC(i: Instruction): nat { i / 0x100_0000 }
  predicate IsJump(i: Instruction) { Opcode(i) == OP_JMP }

  function WithOpcode(i: Instruction, o: nat): (r: Instruction)
    requires o < 128
    ensures Opcode(r) == o && r / 128 == i / 128
  {
    i - i % 128 + o
  }

  function WithSJ(i: Instruction, j: int): (r: Instruction)
    requires -OFFSET_SJ <= j <= MAXARG_SJ - OFFSET_SJ
    ensures ArgSJ(r) == j && Opcode(r) == Opcode(i)
  {
    i % 128 + (j + OFFSET_SJ) * 128
  }

  function WithK(i: Instruction): (r: Instruction)
    ensures ArgK(r) == 1 && r % 0x8000 == i % 0x8000 && r / 0x1_0000 == i / 0x1_0000 && Opcode(r) == Opcode(i)
  {
    if ArgK(i) == 1 then i else i + 0x8000
  }

  function WithC(i: Instruction, c: nat): (r: Instruction)
    ensures ArgC(r) == c % 256 && r % 0x100_0000 == i % 0x100_0000 && Opcode(r) == Opcode(i)
  {
    i % 0x100_0000 + c % 256 * 0x100_0000
  }

  // ----- where jumps lead -----

  type Code = seq<Instruction>

  function Hop(code: Code, pc: nat): int
    requires pc < |code|
  {
    pc + 1 + ArgSJ(code[pc])
  }

  /** A jump has opcode 56, and 25 bits above it, less 16777215, for the way from the instruction after it. */
  lemma JumpIs(code: Code, pc: nat)
    requires pc < |code|
    ensures IsJump(code[pc]) <==> code[pc] % 128 == 56
    ensures Hop(code, pc) == pc + 1 + code[pc] / 128 - 16777215
  {
  }

  /** Every jump goes to an instruction. */
  ghost predicate Inside(code: Code) {
    forall pc :: 0 <= pc < |code| && IsJump(code[pc]) ==> 0 <= Hop(code, pc) < |code|
  }

  /** Execution that comes to `pc` follows `k` jumps and then comes to the instruction at `q`, which is not a jump. */
  ghost predicate LandsIn(code: Code, pc: nat, k: nat, q: nat)
    requires Inside(code) && pc < |code|
    decreases k
  {
    if IsJump(code[pc]) then k > 0 && LandsIn(code, Hop(code, pc), k - 1, q) else k == 0 && pc == q
  }

  /** The first instruction other than a jump that is reached from `pc`, if there is one. */
  ghost predicate Lands(code: Code, pc: nat, q: nat)
    requires Inside(code) && pc < |code|
  {
    exists k: nat :: LandsIn(code, pc, k, q)
  }

  /** `c` jumps lead from `pc` to `t`. */
  ghost predicate Leads(code: Code, pc: nat, c: nat, t: nat)
    requires Inside(code) && pc < |code|
    decreases c
  {
    if c == 0 then pc == t else IsJump(code[pc]) && Leads(code, Hop(code, pc), c - 1, t)
  }

  lemma {:induction false} LeadsOne(code: Code, pc: nat, c: nat, t: nat)
    requires Inside(code) && pc < |code| && t < |code| && Leads(code, pc, c, t) && IsJump(code[t])
    ensures Leads(code, pc, c + 1, Hop(code, t))
    decreases c
  {
    if c > 0 {
      LeadsOne(code, Hop(code, pc), c - 1, t);
    } else {
      assert Leads(code, Hop(code, pc), 0, Hop(code, t));
    }
  }

  lemma {:induction false} LandsAfter(code: Code, pc: nat, c: nat, t: nat, k: nat, q: nat)
    requires Inside(code) && pc < |code| && t < |code| && Leads(code, pc, c, t)
    ensures LandsIn(code, pc, k, q) ==> k >= c && LandsIn(code, t, k - c, q)
    ensures LandsIn(code, t, k, q) ==> LandsIn(code, pc, k + c, q)
    decreases c
  {
    if c > 0 {
      if k > 0 {
        LandsAfter(code, Hop(code, pc), c - 1, t, k - 1, q);
      }
      LandsAfter(code, Hop(code, pc), c - 1, t, k, q);
    }
  }

  // ----- one jump rewritten -----

  /** `code'` is `code` with the jump at `i` sent straight to where `c` hops lead. */
  ghost predicate Threaded(code: Code, code': Code, i: nat, c: nat, t: nat) {
    && Inside(code) && |code'| == |code| && i < |code| && t < |code| && c > 0 && Leads(code, i, c, t)
    && IsJump(code'[i]) && Hop(code', i) == t
    && forall pc :: 0 <= pc < |code| && pc != i ==> code'[pc] == code[pc]
  }

  lemma ThreadedInside(code: Code, code': Code, i: nat, c: nat, t: nat)
    requires Threaded(code, code', i, c, t)
    ensures Inside(code') && IsJump(code[i])
  {
    forall pc | 0 <= pc < |code'| && IsJump(code'[pc]) ensures 0 <= Hop(code', pc) < |code'| {
      if pc != i {
        assert Hop(code', pc) == Hop(code, pc);
      }
    }
  }

  lemma {:induction false} ThreadedForward(code: Code, code': Code, i: nat, c: nat, t: nat, pc: nat, k: nat, q: nat)
      returns (k': nat)
    requires Threaded(code, code', i, c, t) && Inside(code') && pc < |code| && LandsIn(code, pc, k, q)
    ensures k' <= k && LandsIn(code', pc, k', q)
    ensures pc == i && k <= c ==> k' == 1
    decreases k
  {
    ThreadedInside(code, code', i, c, t);
    if pc == i {
      LandsAfter(code, i, c, t, k, q);
      k' := ThreadedForward(code, code', i, c, t, t, k - c, q);
      k' := k' + 1;
    } else if IsJump(code[pc]) {
      k' := ThreadedForward(code, code', i, c, t, Hop(code, pc), k - 1, q);
      k' := k' + 1;
    } else {
      k' := 0;
    }
  }

  lemma {:induction false} ThreadedBackward(code: Code, code': Code, i: nat, c: nat, t: nat, pc: nat, k: nat, q: nat)
      returns (k': nat)
    requires Threaded(code, code', i, c, t) && Inside(code') && pc < |code| && LandsIn(code', pc, k, q)
    ensures LandsIn(code, pc, k', q)
    decreases k
  {
    ThreadedInside(code, code', i, c, t);
    if pc == i {
      k' := ThreadedBackward(code, code', i, c, t, t, k - 1, q);
      LandsAfter(code, i, c, t, k', q);
      k' := k' + c;
    } else if IsJump(code[pc]) {
      k' := ThreadedBackward(code, code', i, c, t, Hop(code, pc), k - 1, q);
      k' := k' + 1;
    } else {
      k' := 0;
    }
  }

  /** Two codes of the same shape in which execution meets the same instructions. */
  ghost predicate SameLandings(code: Code, code': Code) {
    && Inside(code) && Inside(code') && |code'| == |code|
    && (forall pc, q :: 0 <= pc < |code| && 0 <= q ==> (Lands(code, pc, q) <==> Lands(code', pc, q)))
  }

  /** The jumps of `code'` are no longer than those of `code`. */
  ghost predicate NotLonger(code: Code, code': Code) {
    && Inside(code) && Inside(code') && |code'| == |code|
    && forall pc, k: nat, q: nat :: 0 <= pc < |code| && LandsIn(code, pc, k, q) ==> exists k': nat :: k' <= k && LandsIn(code', pc, k', q)
  }

  lemma ThreadedSame(code: Code, code': Code, i: nat, c: nat, t: nat)
    requires Threaded(code, code', i, c, t)
    ensures SameLandings(code, code') && NotLonger(code, code')
  {
    ThreadedInside(code, code', i, c, t);
    forall pc: nat, k: nat, q: nat | pc < |code| && LandsIn(code, pc, k, q)
      ensures exists k': nat :: k' <= k && LandsIn(code', pc, k', q)
    {
      var k' := ThreadedForward(code, code', i, c, t, pc, k, q);
    }
    forall pc: nat, q: nat | pc < |code| && Lands(code', pc, q) ensures Lands(code, pc, q) {
      var k: nat :| LandsIn(code', pc, k, q);
      var k' := ThreadedBackward(code, code', i, c, t, pc, k, q);
    }
  }

  lemma NotLongerTrans(a: Code, b: Code, c: Code)
    requires NotLonger(a, b) && NotLonger(b, c)
    ensures NotLonger(a, c)
  {
    forall pc: nat, k: nat, q: nat | pc < |a| && LandsIn(a, pc, k, q)
      ensures exists k': nat :: k' <= k && LandsIn(c, pc, k', q)
    {
      var k1: nat :| k1 <= k && LandsIn(b, pc, k1, q);
    }
  }

  // ----- the pass -----

  function Flagged(i: Instruction, needclose: bool, vararg: bool, numparams: nat): (r: Instruction)
    ensures Opcode(r) == Opcode(i)
  {
    var r := if needclose then WithK(i) else i;
    if vararg then WithC(r, numparams + 1) else r
  }

  /** What becomes of an instruction that is not a jump: a return that has upvalues to close, or extra arguments to
      drop, says so. */
  function Adjusted(i: Instruction, needclose: bool, vararg: bool, numparams: nat): (r: Instruction)
    ensures IsJump(r) == IsJump(i)
    ensures needclose && Opcode(i) in {OP_RETURN, OP_RETURN0, OP_RETURN1} ==> Opcode(r) == OP_RETURN
  {
    var op := Opcode(i);
    if op == OP_RETURN0 || op == OP_RETURN1 then
      (if needclose || vararg then Flagged(WithOpcode(i, OP_RETURN), needclose, vararg, numparams) else i)
    else if op == OP_RETURN || op == OP_TAILCALL then Flagged(i, needclose, vararg, numparams)
    else i
  }

  /** The same in numbers. A return (opcodes 70 to 72) that has upvalues to close or extra arguments to drop becomes the
      general one, 70, and it or a tail call, 69, then has bit 15 set for the upvalues and, in the highest eight bits, one
      more than the number of parameters for the arguments. Nothing else changes. */
  predicate Completed(i: Instruction, r: Instruction, needclose: bool, vararg: bool, numparams: nat) {
    if i % 128 < 69 || i % 128 > 72 || (i % 128 > 70 && !needclose && !vararg) then r == i
    else
      && r % 128 == (if i % 128 == 69 then 69 else 70)
      && r / 128 % 256 == i / 128 % 256 && r / 0x1_0000 % 256 == i / 0x1_0000 % 256
      && r / 0x8000 % 2 == (if needclose then 1 else i / 0x8000 % 2)
      && r / 0x100_0000 == if vararg then (numparams + 1) % 256 else i / 0x100_0000
  }

  lemma AdjustedIs(i: Instruction, needclose: bool, vararg: bool, numparams: nat)
    ensures Completed(i, Adjusted(i, needclose, vararg, numparams), needclose, vararg, numparams)
  {
    hide WithK, WithC, WithOpcode;
    var op := Opcode(i);
    if 69 <= op <= 72 && (op <= 70 || needclose || vararg) {
      var i1 := if op > 70 then WithOpcode(i, OP_RETURN) else i;
      if op > 70 { OpcodeKeeps(i, OP_RETURN); }
      var i2 := if needclose then WithK(i1) else i1;
      KKeeps(i1);
      CKeeps(i2, numparams + 1);
    }
  }

  /** A word is its five fields. */
  lemma Split(i: Instruction)
    ensures i == i % 128 + 128 * (i / 128 % 256) + 0x8000 * (i / 0x8000 % 2) + 0x1_0000 * (i / 0x1_0000 % 256) + 0x100_0000 * (i / 0x100_0000)
  {
    var x := i / 128;
    var y := x / 256;
    var z := y / 2;
    var t := z / 256;
    assert i / 0x8000 == y && i / 0x1_0000 == z && i / 0x100_0000 == t;
    assert i == i % 128 + 128 * (x % 256 + 256 * (y % 2 + 2 * (z % 256 + 256 * t)));
  }

  lemma Fields(r: nat, o: nat, a: nat, k: nat, b: nat, c: nat)
    requires o < 128 && a < 256 && k < 2 && b < 256 && c < 256
    requires r == o + 128 * a + 0x8000 * k + 0x1_0000 * b + 0x100_0000 * c
    ensures r % 128 == o && r / 128 % 256 == a && r / 0x8000 % 2 == k && r / 0x1_0000 % 256 == b && r / 0x100_0000 == c
  {
    assert r / 128 == a + 256 * (k + 2 * (b + 256 * c));
    assert r / 0x8000 == k + 2 * (b + 256 * c);
    assert r / 0x1_0000 == b + 256 * c;
  }

  /** Each field is set without touching the others. */
  lemma OpcodeKeeps(i: Instruction, o: nat)
    requires o < 128
    ensures var r := WithOpcode(i, o);
            && r % 128 == o && r / 128 % 256 == i / 128 % 256 && r / 0x8000 % 2 == i / 0x8000 % 2
            && r / 0x1_0000 % 256 == i / 0x1_0000 % 256 && r / 0x100_0000 == i / 0x100_0000
  {
    Split(i);
    var a, k, b, c := i / 128 % 256, i / 0x8000 % 2, i / 0x1_0000 % 256, i / 0x100_0000;
    Fields(WithOpcode(i, o), o, a, k, b, c);
  }

  lemma KKeeps(i: Instruction)
    ensures var r := WithK(i);
            && r / 0x8000 % 2 == 1 && r % 128 == i % 128 && r / 128 % 256 == i / 128 % 256
            && r / 0x1_0000 % 256 == i / 0x1_0000 % 256 && r / 0x100_0000 == i / 0x100_0000
  {
    Split(i);
    var o, a, b, c := i % 128, i / 128 % 256, i / 0x1_0000 % 256, i / 0x100_0000;
    Fields(WithK(i), o, a, 1, b, c);
  }

  lemma CKeeps(i: Instruction, v: nat)
    ensures var r := WithC(i, v);
            && r / 0x100_0000 == v % 256 && r % 128 == i % 128 && r / 128 % 256 == i / 128 % 256
            && r / 0x8000 % 2 == i / 0x8000 % 2 && r / 0x1_0000 % 256 == i / 0x1_0000 % 256
  {
    Split(i);
    var o, a, k, b := i % 128, i / 128 % 256, i / 0x8000 % 2, i / 0x1_0000 % 256;
    Fields(WithC(i, v), o, a, k, b, v % 256);
  }

  /** `finaltarget` */
  method FinalTarget(code: array<Instruction>, i: nat) returns (t: nat, ghost c: nat)
    requires Inside(code[..]) && i < code.Length
    ensures t < code.Length && c <= 100 && Leads(code[..], i, c, t)
    ensures IsJump(code[t]) ==> c == 100
    ensures IsJump(code[i]) ==> c > 0
  {
    t := i;
    var count := 0;
    while count < 100 && IsJump(code[t])
      invariant 0 <= count <= 100 && t < code.Length && Leads(code[..], i, count, t)
      invariant IsJump(code[i]) && count == 0 ==> t == i
    {
      LeadsOne(code[..], i, count, t);
      t := t + ArgSJ(code[t]) + 1;
      count := count + 1;
    }
    c := count;
  }

  /** `fixjump` */
  method FixJump(code: array<Instruction>, pc: nat, dest: nat) returns (ok: bool)
    requires pc < code.Length && IsJump(code[pc]) && dest < code.Length
    modifies code
    ensures ok ==> code[..] == old(code[..])[pc := code[pc]] && IsJump(code[pc]) && Hop(code[..], pc) == dest
    ensures !ok ==> code.Length > OFFSET_SJ && code[..] == old(code[..])
    ensures ok <==> -16777215 <= dest - (pc + 1) <= 16777216
  {
    var offset := dest - (pc + 1);
    if !(-OFFSET_SJ <= offset <= MAXARG_SJ - OFFSET_SJ) {
      return false;
    }
    code[pc] := WithSJ(code[pc], offset);
    ok := true;
  }

  /** The cases of `luaK_finish` for returns and tail calls. */
  method AdjustReturn(code: array<Instruction>, i: nat, needclose: bool, vararg: bool, numparams: nat)
    requires i < code.Length
    modifies code
    ensures code[..] == old(code[..])[i := Adjusted(old(code[i]), needclose, vararg, numparams)]
  {
    var op := Opcode(code[i]);
    if op == OP_RETURN0 || op == OP_RETURN1 {
      if !(needclose || vararg) {
        return;
      }
      code[i] := WithOpcode(code[i], OP_RETURN);
      op := OP_RETURN;
    }
    if op == OP_RETURN || op == OP_TAILCALL {
      if needclose {
        code[i] := WithK(code[i]);
      }
      if vararg {
        code[i] := WithC(code[i], numparams + 1);
      }
    }
  }

  /** The first `i` instructions of `now` are finished, and the others are those of `orig`. */
  ghost predicate Progress(orig: Code, now: Code, i: nat, needclose: bool, vararg: bool, numparams: nat) {
    && |now| == |orig|
    && forall pc :: 0 <= pc < |orig| ==>
         if IsJump(orig[pc]) then IsJump(now[pc])
         else now[pc] == if pc < i then Adjusted(orig[pc], needclose, vararg, numparams) else orig[pc]
  }

  /** The jumps before `i` that had at most 100 hops to make go straight to where they lead. */
  ghost predicate StraightUpTo(orig: Code, now: Code, i: nat)
    requires Inside(orig) && Inside(now) && |now| == |orig|
  {
    forall pc: nat, k: nat, q: nat ::
      pc < i && pc < |orig| && 0 < k <= 100 && LandsIn(orig, pc, k, q) ==> LandsIn(now, pc, 1, q)
  }

  ghost predicate Finished(orig: Code, now: Code, i: nat, needclose: bool, vararg: bool, numparams: nat) {
    && SameLandings(orig, now) && NotLonger(orig, now)
    && Progress(orig, now, i, needclose, vararg, numparams) && StraightUpTo(orig, now, i)
  }

  /** One turn of the loop. */
  method FinishOne(code: array<Instruction>, i: nat, needclose: bool, vararg: bool, numparams: nat, ghost orig: Code)
      returns (ok: bool)
    requires i < code.Length && Finished(orig, code[..], i, needclose, vararg, numparams)
    modifies code
    ensures !ok ==> code.Length > OFFSET_SJ
    ensures ok ==> Finished(orig, code[..], i + 1, needclose, vararg, numparams)
  {
    ghost var was := code[..];
    if IsJump(code[i]) {
      var t, c := FinalTarget(code, i);
      ok := FixJump(code, i, t);
      if ok {
        FinishedJump(orig, was, code[..], i, c, t, needclose, vararg, numparams);
      }
    } else {
      AdjustReturn(code, i, needclose, vararg, numparams);
      ok := true;
      FinishedReturn(orig, was, code[..], i, needclose, vararg, numparams);
    }
  }

  lemma FinishedJump(orig: Code, was: Code, now: Code, i: nat, c: nat, t: nat, needclose: bool, vararg: bool, numparams: nat)
    requires Finished(orig, was, i, needclose, vararg, numparams) && i < |was| && IsJump(was[i])
    requires Threaded(was, now, i, c, t) && c <= 100 && (IsJump(was[t]) ==> c == 100)
    ensures Finished(orig, now, i + 1, needclose, vararg, numparams)
  {
    assert Progress(orig, now, i + 1, needclose, vararg, numparams);
    ThreadedSame(was, now, i, c, t);
    Straight(orig, was, now, i, c, t);
    StillStraight(orig, was, now, i);
    hide Progress, Threaded, LandsIn;
    SameTrans(orig, was, now);
    NotLongerTrans(orig, was, now);
  }

  lemma FinishedReturn(orig: Code, was: Code, now: Code, i: nat, needclose: bool, vararg: bool, numparams: nat)
    requires Finished(orig, was, i, needclose, vararg, numparams) && i < |was| && !IsJump(was[i])
    requires now == was[i := Adjusted(was[i], needclose, vararg, numparams)]
    ensures Finished(orig, now, i + 1, needclose, vararg, numparams)
  {
    assert Progress(orig, now, i + 1, needclose, vararg, numparams);
    AdjustedSame(was, now, i);
    StillStraight(orig, was, now, i);
    hide Progress, LandsIn, Adjusted;
    SameTrans(orig, was, now);
    NotLongerTrans(orig, was, now);
    NoHops(orig, was, i);
  }

  lemma NoHops(orig: Code, was: Code, i: nat)
    requires NotLonger(orig, was) && i < |orig| && (IsJump(orig[i]) ==> IsJump(was[i])) && !IsJump(was[i])
    ensures forall k: nat, q: nat :: 0 < k ==> !LandsIn(orig, i, k, q)
  {
  }

  /** `luaK_finish`. Every place still leads to the same instruction, or still to none; what is not a jump is only
      adjusted; a jump that had at most 100 hops to make goes straight to where it leads. The pass can only fail on code
      too long for the jump offset. */
  method LuaKFinish(code: array<Instruction>, needclose: bool, vararg: bool, numparams: nat) returns (ok: bool)
    requires Inside(code[..])
    modifies code
    ensures !ok ==> code.Length > OFFSET_SJ
    ensures ok ==> SameLandings(old(code[..]), code[..]) && StraightUpTo(old(code[..]), code[..], code.Length)
    ensures ok ==> forall pc :: 0 <= pc < code.Length ==>
                     if IsJump(old(code[..])[pc]) then IsJump(code[pc])
                     else
                       && code[pc] == Adjusted(old(code[..])[pc], needclose, vararg, numparams)
                       && Completed(old(code[..])[pc], code[pc], needclose, vararg, numparams)
  {
    hide Completed, Adjusted;
    ghost var orig := code[..];
    SelfSame(orig);
    var i := 0;
    while i < code.Length
      invariant 0 <= i <= code.Length && Finished(orig, code[..], i, needclose, vararg, numparams)
    {
      hide Finished;
      ok := FinishOne(code, i, needclose, vararg, numparams, orig);
      if !ok {
        return;
      }
      i := i + 1;
    }
    AllCompleted(orig, needclose, vararg, numparams);
    ok := true;
  }

  lemma AllCompleted(orig: Code, needclose: bool, vararg: bool, numparams: nat)
    ensures forall pc :: 0 <= pc < |orig| ==>
              Completed(orig[pc], Adjusted(orig[pc], needclose, vararg, numparams), needclose, vararg, numparams)
  {
    hide Completed, Adjusted;
    forall pc | 0 <= pc < |orig|
      ensures Completed(orig[pc], Adjusted(orig[pc], needclose, vararg, numparams), needclose, vararg, numparams)
    {
      AdjustedIs(orig[pc], needclose, vararg, numparams);
    }
  }

  lemma SelfSame(code: Code)
    requires Inside(code)
    ensures SameLandings(code, code) && NotLonger(code, code)
  {
  }

  lemma SameTrans(a: Code, b: Code, c: Code)
    requires SameLandings(a, b) && SameLandings(b, c)
    ensures SameLandings(a, c)
  {
  }

  lemma {:induction false} AdjustedLands(code: Code, code': Code, i: nat, pc: nat, k: nat, q: nat)
    requires Inside(code) && Inside(code') && |code'| == |code| && i < |code| && !IsJump(code[i]) && !IsJump(code'[i])
    requires forall x :: 0 <= x < |code| && x != i ==> code'[x] == code[x]
    requires pc < |code|
    ensures LandsIn(code, pc, k, q) <==> LandsIn(code', pc, k, q)
    decreases k
  {
    if IsJump(code[pc]) && k > 0 {
      AdjustedLands(code, code', i, Hop(code, pc), k - 1, q);
    }
  }

  /** An instruction that is not a jump may become any other. */
  lemma AdjustedSame(code: Code, code': Code, i: nat)
    requires Inside(code) && |code'| == |code| && i < |code| && !IsJump(code[i]) && !IsJump(code'[i])
    requires forall x :: 0 <= x < |code| && x != i ==> code'[x] == code[x]
    ensures SameLandings(code, code') && NotLonger(code, code')
  {
    assert forall x :: 0 <= x < |code| && IsJump(code'[x]) ==> Hop(code', x) == Hop(code, x);
    forall pc: nat, k: nat, q: nat | pc < |code| ensures LandsIn(code, pc, k, q) <==> LandsIn(code', pc, k, q) {
      AdjustedLands(code, code', i, pc, k, q);
    }
  }

  /** A jump that lands within 100 hops is sent straight there. */
  lemma Straight(orig: Code, was: Code, now: Code, i: nat, c: nat, t: nat)
    requires Threaded(was, now, i, c, t) && Inside(now) && NotLonger(orig, was) && c <= 100 && (IsJump(was[t]) ==> c == 100)
    ensures forall k: nat, q: nat :: 0 < k <= 100 && LandsIn(orig, i, k, q) ==> LandsIn(now, i, 1, q)
  {
    ThreadedInside(was, now, i, c, t);
    forall k: nat, q: nat | 0 < k <= 100 && LandsIn(orig, i, k, q) ensures LandsIn(now, i, 1, q) {
      var k': nat :| k' <= k && LandsIn(was, i, k', q);
      LandsAfter(was, i, c, t, k', q);
      assert LandsIn(now, t, 0, q);
    }
  }

  /** And stays so when the rest of the code is shortened. */
  lemma StillStraight(orig: Code, was: Code, now: Code, i: nat)
    requires Inside(orig) && |was| == |orig| && NotLonger(was, now) && i <= |orig|
    requires forall pc :: 0 <= pc < |orig| && IsJump(orig[pc]) ==> IsJump(now[pc])
    requires forall pc: nat, k: nat, q: nat :: pc < i && 0 < k <= 100 && LandsIn(orig, pc, k, q) ==> LandsIn(was, pc, 1, q)
    ensures forall pc: nat, k: nat, q: nat :: pc < i && 0 < k <= 100 && LandsIn(orig, pc, k, q) ==> LandsIn(now, pc, 1, q)
  {
    forall pc: nat, k: nat, q: nat | pc < i && 0 < k <= 100 && LandsIn(orig, pc, k, q) ensures LandsIn(now, pc, 1, q) {
      var k': nat :| k' <= 1 && LandsIn(now, pc, k', q);
    }
  }
}
