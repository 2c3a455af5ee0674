/** The 32-bit form of the instructions of expression code, field by field as lopcodes.h lays them out. */
module Encoding {
  import opened Wrappers
  import opened LuaOps

  /** The opcode numbers of `OpCode`. */
  function OpcodeOf(i: Instr<int>): (o: nat)
    ensures o < 128
  {
    match i
    case Move(_, _) => 0
    case LoadI(_, _) => 1
    case LoadF(_, _) => 2
    case LoadK(_, _) => 3
    case LoadKX(_) => 4
    case LoadFalse(_) => 5
    case LFalseSkip(_) => 6
    case LoadTrue(_) => 7
    case LoadNil(_, _) => 8
    case NotOp(_, _) => 51
    case Jmp(_) => 56
    case Cmp(op, _, _, _, _) => CmpOpcode(op)
    case Test(_, _) => 66
    case TestSet(_, _, _) => 67
    case ExtraArg(_) => 82
  }

  function CmpOpcode(op: CmpOp): (o: nat)
    ensures 57 <= o < 66
  {
    match op
    case OpEq => 57
    case OpLt => 58
    case OpLe => 59
    case OpEqK => 60
    case OpEqI => 61
    case OpLtI => 62
    case OpLeI => 63
    case OpGtI => 64
    case OpGeI => 65
  }

  function Bit(b: bool): nat {
    if b then 1 else 0
  }

  /** The three layouts: iABC; iABx and iAsBx; iAx and isJ. What does not fit a field is cut off. */
  function ABCk(o: nat, a: nat, b: nat, c: nat, k: nat): (w: nat)
    requires o < 128
    ensures w < 0x1_0000_0000
  {
    o + a % 256 * 128 + k % 2 * 0x8000 + b % 256 * 0x1_0000 + c % 256 * 0x100_0000
  }

  function ABx(o: nat, a: nat, bx: nat): (w: nat)
    requires o < 128
    ensures w < 0x1_0000_0000
  {
    o + a % 256 * 128 + bx % 0x2_0000 * 0x8000
  }

  function Ax(o: nat, ax: nat): (w: nat)
    requires o < 128
    ensures w < 0x1_0000_0000
  {
    o + ax % 0x200_0000 * 128
  }

  /** The instruction word. */
  function Encode(i: Instr<int>): (w: nat)
    ensures w < 0x1_0000_0000
  {
    var o := OpcodeOf(i);
    match i
    case Move(a, b) => ABCk(o, a, b, 0, 0)
    case LoadI(a, n) => ABx(o, a, (n + 65535) % 0x2_0000)
    case LoadF(a, n) => ABx(o, a, (n + 65535) % 0x2_0000)
    case LoadK(a, k) => ABx(o, a, k)
    case LoadKX(a) => ABx(o, a, 0)
    case LoadFalse(a) => ABCk(o, a, 0, 0, 0)
    case LFalseSkip(a) => ABCk(o, a, 0, 0, 0)
    case LoadTrue(a) => ABCk(o, a, 0, 0, 0)
    case LoadNil(a, n) => ABCk(o, a, n, 0, 0)
    case NotOp(a, b) => ABCk(o, a, b, 0, 0)
    case Jmp(j) => Ax(o, (j + 16777215) % 0x200_0000)
    case Cmp(_, a, b, isfloat, cond) => ABCk(o, a, b, Bit(isfloat), Bit(cond))
    case Test(a, cond) => ABCk(o, a, 0, 0, Bit(cond))
    case TestSet(a, b, cond) => ABCk(o, a, b, 0, Bit(cond))
    case ExtraArg(ax) => Ax(o, ax)
  }

  // ----- the fields of a word -----

  function FieldOp(w: nat): nat { w % 128 }
  function FieldA(w: nat): nat { w / 128 % 256 }
  function FieldK(w: nat): bool { w / 0x8000 % 2 == 1 }
  function FieldB(w: nat): nat { w / 0x1_0000 % 256 }
  function FieldC(w: nat): nat { w / 0x100_0000 % 256 }
  function FieldBx(w: nat): nat { w / 0x8000 % 0x2_0000 }
  function FieldAx(w: nat): nat { w / 128 % 0x200_0000 }

  function CmpOf(o: nat): CmpOp {
    if o == 57 then OpEq else if o == 58 then OpLt else if o == 59 then OpLe else if o == 60 then OpEqK
    else if o == 61 then OpEqI else if o == 62 then OpLtI else if o == 63 then OpLeI else if o == 64 then OpGtI else OpGeI
  }

  /** What the interpreter takes a word for; other opcodes do not occur in expression code. */
  function Decode(w: nat): Instr<int> {
    var o, a := FieldOp(w), FieldA(w);
    if o == 0 then Move(a, FieldB(w))
    else if o == 1 then LoadI(a, FieldBx(w) - 65535)
    else if o == 2 then LoadF(a, FieldBx(w) - 65535)
    else if o == 3 then LoadK(a, FieldBx(w))
    else if o == 4 then LoadKX(a)
    else if o == 5 then LoadFalse(a)
    else if o == 6 then LFalseSkip(a)
    else if o == 7 then LoadTrue(a)
    else if o == 8 then LoadNil(a, FieldB(w))
    else if o == 51 then NotOp(a, FieldB(w))
    else if o == 56 then Jmp(FieldAx(w) - 16777215)
    else if 57 <= o < 66 then Cmp(CmpOf(o), a, FieldB(w), FieldC(w) != 0, FieldK(w))
    else if o == 66 then Test(a, FieldK(w))
    else if o == 67 then TestSet(a, FieldB(w), FieldK(w))
    else ExtraArg(FieldAx(w))
  }

  /** Every field of the instruction fits its place. */
  predicate Fits(i: Instr<int>) {
    match i
    case Move(a, b) => a <= 255 && b <= 255
    case LoadI(a, n) => a <= 255 && -65535 <= n <= 65536
    case LoadF(a, n) => a <= 255 && -65535 <= n <= 65536
    case LoadK(a, k) => a <= 255 && k <= 131071
    case LoadKX(a) => a <= 255
    case LoadFalse(a) => a <= 255
    case LFalseSkip(a) => a <= 255
    case LoadTrue(a) => a <= 255
    case LoadNil(a, n) => a <= 255 && n <= 255
    case NotOp(a, b) => a <= 255 && b <= 255
    case Jmp(j) => -16777215 <= j <= 16777216
    case Cmp(_, a, b, _, _) => a <= 255 && b <= 255
    case Test(a, _) => a <= 255
    case TestSet(a, b, _) => a <= 255 && b <= 255
    case ExtraArg(ax) => ax <= 33554431
  }

  lemma FieldsABCk(o: nat, a: nat, b: nat, c: nat, k: nat)
    requires o < 128
    ensures var w := ABCk(o, a, b, c, k);
            FieldOp(w) == o && FieldA(w) == a % 256 && FieldK(w) == (k % 2 == 1) && FieldB(w) == b % 256 && FieldC(w) == c % 256
  {
    var x, y, z, t := a % 256, k % 2, b % 256, c % 256;
    var w := ABCk(o, a, b, c, k);
    LowFields(w, o, x, y + 2 * z + 512 * t);
    HighFields(w, o + 128 * x, y, z, t);
  }

  lemma LowFields(w: nat, o: nat, x: nat, rest: nat)
    requires w == o + 128 * x + 0x8000 * rest && o < 128 && x < 256
    ensures FieldOp(w) == o && FieldA(w) == x
  {
    assert w / 128 == x + 256 * rest;
  }

  lemma HighFields(w: nat, low: nat, y: nat, z: nat, t: nat)
    requires w == low + 0x8000 * y + 0x1_0000 * z + 0x100_0000 * t && low < 0x8000 && y < 2 && z < 256 && t < 256
    ensures FieldK(w) == (y == 1) && FieldB(w) == z && FieldC(w) == t
  {
    assert w / 0x8000 == y + 2 * (z + 256 * t);
    assert w / 0x1_0000 == z + 256 * t;
    assert w / 0x100_0000 == t;
  }

  lemma FieldsABx(o: nat, a: nat, bx: nat)
    requires o < 128
    ensures var w := ABx(o, a, bx); FieldOp(w) == o && FieldA(w) == a % 256 && FieldBx(w) == bx % 0x2_0000
  {
    var x, y := a % 256, bx % 0x2_0000;
    assert ABx(o, a, bx) == o + 128 * (x + 256 * y);
  }

  lemma FieldsAx(o: nat, ax: nat)
    requires o < 128
    ensures var w := Ax(o, ax); FieldOp(w) == o && FieldAx(w) == ax % 0x200_0000
  {
    var x := ax % 0x200_0000;
    assert Ax(o, ax) == o + 128 * x;
  }

  /** The word is read back as the instruction if and only if every field fits. */
  lemma FitsExactly(i: Instr<int>)
    ensures Decode(Encode(i)) == i <==> Fits(i)
  {
    hide ABCk, ABx, Ax, FieldOp, FieldA, FieldB, FieldC, FieldK, FieldBx, FieldAx;
    var o := OpcodeOf(i);
    match i
    case LoadI(a, n) => FieldsABx(o, a, (n + 65535) % 0x2_0000);
    case LoadF(a, n) => FieldsABx(o, a, (n + 65535) % 0x2_0000);
    case LoadK(a, k) => FieldsABx(o, a, k);
    case LoadKX(a) => FieldsABx(o, a, 0);
    case Jmp(j) => FieldsAx(o, (j + 16777215) % 0x200_0000);
    case ExtraArg(ax) => FieldsAx(o, ax);
    case _ =>
      hide Fits, Encode, Decode, OpcodeOf;
      FitsABC(i);
  }

  lemma FitsABC(i: Instr<int>)
    requires !i.LoadI? && !i.LoadF? && !i.LoadK? && !i.LoadKX? && !i.Jmp? && !i.ExtraArg?
    ensures Decode(Encode(i)) == i <==> Fits(i)
  {
    hide ABCk, ABx, Ax, FieldOp, FieldA, FieldB, FieldC, FieldK, FieldBx, FieldAx;
    var o := OpcodeOf(i);
    match i
    case Move(a, b) => FieldsABCk(o, a, b, 0, 0);
    case LoadFalse(a) => FieldsABCk(o, a, 0, 0, 0);
    case LFalseSkip(a) => FieldsABCk(o, a, 0, 0, 0);
    case LoadTrue(a) => FieldsABCk(o, a, 0, 0, 0);
    case LoadNil(a, n) => FieldsABCk(o, a, n, 0, 0);
    case NotOp(a, b) => FieldsABCk(o, a, b, 0, 0);
    case Cmp(_, a, b, isfloat, cond) => FieldsABCk(o, a, b, Bit(isfloat), Bit(cond));
    case Test(a, cond) => FieldsABCk(o, a, 0, 0, Bit(cond));
    case TestSet(a, b, cond) => FieldsABCk(o, a, b, 0, Bit(cond));
  }

  /** The immediate operand of a comparison is its field B less 127, as a float where field C is not 0. */
  lemma ImmediateField(op: CmpOp, a: nat, b: nat, isfloat: bool, cond: bool)
    requires b <= 255
    ensures var w := Encode(Cmp(op, a, b, isfloat, cond)); var n := w / 0x1_0000 % 256 - 127;
            Immediate(b, isfloat) == if w / 0x100_0000 == 0 then Int(n) else Flt(n as real)
  {
    FieldsABCk(CmpOpcode(op), a, b, Bit(isfloat), Bit(cond));
  }
}
