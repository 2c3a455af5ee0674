/** Which tree an expression without parentheses is read as, said by the order of the operators alone: the loosest operator
    is the root, the last one of several unless they group to the right. */
module OperatorOrder {
  import opened Wrappers
  import opened Operators

  /** From the loosest to the tightest, as the reference manual lists the operators. The unary ones stand at 10. */
  function Rank(op: BinOp): nat {
    match op
    case Or => 0
    case And => 1
    case Lt => 2 case Gt => 2 case Le => 2 case Ge => 2 case Ne => 2 case Eq => 2
    case BOr => 3
    case BXor => 4
    case BAnd => 5
    case Shl => 6 case Shr => 6
    case Concat => 7
    case Add => 8 case Sub => 8
    case Mul => 9 case Div => 9 case IDiv => 9 case Mod => 9
    case Pow => 11
  }

  /** `a .. b .. c` and `a ^ b ^ c` have their first operator as the root. */
  predicate GroupsRight(op: BinOp) {
    op == Concat || op == Pow
  }

  /** Between two operators with one operand between them, whether the second takes it. */
  predicate SecondTakes(a: BinOp, b: BinOp) {
    Rank(b) > Rank(a) || (Rank(b) == Rank(a) && GroupsRight(b))
  }

  /** The two priorities of each operator say exactly this. */
  lemma PrioritiesAre(a: BinOp, b: BinOp)
    ensures Left(b) > Right(a) <==> SecondTakes(a, b)
    ensures Left(b) > UNARY_PRIORITY <==> b == Pow
    ensures 0 < Left(b)
  {
  }

  // ----- expressions without parentheses -----

  /** An operand with the unary operators in front of it; what it is inside does not matter here. */
  datatype Operand = Operand(prefix: seq<UnOp>, body: Text)

  predicate Closed(x: Operand) {
    (x.body.TextAtom? || x.body.Paren?) && Fits(x.body)
  }

  predicate IsChain(xs: seq<Operand>, ops: seq<BinOp>) {
    |xs| == |ops| + 1 && forall i :: 0 <= i < |xs| ==> Closed(xs[i])
  }

  function PrefixTokens(us: seq<UnOp>): seq<Token> {
    if us == [] then [] else [UnToken(us[0])] + PrefixTokens(us[1..])
  }

  function OperandTokens(x: Operand): seq<Token> {
    PrefixTokens(x.prefix) + Flat(x.body)
  }

  /** Operands and operators in turn. */
  function ChainTokens(xs: seq<Operand>, ops: seq<BinOp>): seq<Token>
    requires |xs| == |ops| + 1
    decreases |ops|
  {
    if ops == [] then OperandTokens(xs[0])
    else OperandTokens(xs[0]) + [BinToken(ops[0])] + ChainTokens(xs[1..], ops[1..])
  }

  /** The operator at the root. */
  function Loosest(ops: seq<BinOp>): (k: nat)
    requires ops != []
    ensures k < |ops|
    ensures forall i :: 0 <= i < k ==> Rank(ops[i]) > Rank(ops[k]) || (Rank(ops[i]) == Rank(ops[k]) && !GroupsRight(ops[k]))
    ensures forall i :: k < i < |ops| ==> Rank(ops[i]) > Rank(ops[k]) || (Rank(ops[i]) == Rank(ops[k]) && GroupsRight(ops[k]))
    decreases |ops|
  {
    var n := |ops| - 1;
    if n == 0 then 0
    else
      var k := Loosest(ops[..n]);
      if Rank(ops[n]) < Rank(ops[k]) || (Rank(ops[n]) == Rank(ops[k]) && !GroupsRight(ops[k])) then n else k
  }

  /** The tree: split at the loosest operator. A unary operator is looser than `^` and tighter than all others. */
  function Grouped(xs: seq<Operand>, ops: seq<BinOp>): Text
    requires |xs| == |ops| + 1
    decreases |ops|, |xs[0].prefix|
  {
    if ops != [] && ops[Loosest(ops)] != Pow then
      var k := Loosest(ops);
      TextBin(ops[k], Grouped(xs[..k + 1], ops[..k]), Grouped(xs[k + 1..], ops[k + 1..]))
    else if xs[0].prefix != [] then
      TextUn(xs[0].prefix[0], Grouped(xs[0 := Operand(xs[0].prefix[1..], xs[0].body)], ops))
    else if ops == [] then xs[0].body
    else TextBin(Pow, xs[0].body, Grouped(xs[1..], ops[1..]))
  }

  // ----- it has the tokens of the chain -----

  lemma {:induction false} TokensSplit(xs: seq<Operand>, ops: seq<BinOp>, k: nat)
    requires |xs| == |ops| + 1 && k < |ops|
    ensures ChainTokens(xs, ops) == ChainTokens(xs[..k + 1], ops[..k]) + [BinToken(ops[k])] + ChainTokens(xs[k + 1..], ops[k + 1..])
    decreases k
  {
    if k == 0 {
      assert ops[..0] == [];
    } else {
      TokensSplit(xs[1..], ops[1..], k - 1);
      assert xs[1..][..k] == xs[..k + 1][1..] && ops[1..][..k - 1] == ops[..k][1..];
      assert xs[1..][k..] == xs[k + 1..] && ops[1..][k..] == ops[k + 1..];
    }
  }

  lemma TokensPrefix(xs: seq<Operand>, ops: seq<BinOp>)
    requires |xs| == |ops| + 1 && xs[0].prefix != []
    ensures ChainTokens(xs, ops) ==
            [UnToken(xs[0].prefix[0])] + ChainTokens(xs[0 := Operand(xs[0].prefix[1..], xs[0].body)], ops)
  {
    hide OperandTokens, ChainTokens;
    var xs' := xs[0 := Operand(xs[0].prefix[1..], xs[0].body)];
    assert xs'[1..] == xs[1..];
    PrefixFirst(xs[0]);
    ChainFirst(xs, ops);
    ChainFirst(xs', ops);
    if ops != [] { PutBefore(UnToken(xs[0].prefix[0]), OperandTokens(xs'[0]), [BinToken(ops[0])], ChainTokens(xs[1..], ops[1..])); }
  }

  lemma ChainFirst(xs: seq<Operand>, ops: seq<BinOp>)
    requires |xs| == |ops| + 1
    ensures ChainTokens(xs, ops) == if ops == [] then OperandTokens(xs[0])
                                    else OperandTokens(xs[0]) + [BinToken(ops[0])] + ChainTokens(xs[1..], ops[1..])
  {
  }

  lemma PutBefore(u: Token, a: seq<Token>, b: seq<Token>, c: seq<Token>)
    ensures [u] + a + b + c == [u] + (a + b + c)
  {
  }

  lemma PrefixFirst(x: Operand)
    requires x.prefix != []
    ensures OperandTokens(x) == [UnToken(x.prefix[0])] + OperandTokens(Operand(x.prefix[1..], x.body))
  {
  }

  lemma {:induction false} GroupedTokens(xs: seq<Operand>, ops: seq<BinOp>)
    requires |xs| == |ops| + 1
    ensures Flat(Grouped(xs, ops)) == ChainTokens(xs, ops)
    decreases |ops|, |xs[0].prefix|
  {
    hide Loosest, Rank;
    if ops != [] && ops[Loosest(ops)] != Pow {
      var k := Loosest(ops);
      GroupedTokens(xs[..k + 1], ops[..k]);
      GroupedTokens(xs[k + 1..], ops[k + 1..]);
      TokensSplit(xs, ops, k);
    } else if xs[0].prefix != [] {
      GroupedTokens(xs[0 := Operand(xs[0].prefix[1..], xs[0].body)], ops);
      TokensPrefix(xs, ops);
    } else if ops != [] {
      GroupedTokens(xs[1..], ops[1..]);
      OnlyPow(ops);
    }
  }

  lemma OnlyPow(ops: seq<BinOp>)
    requires ops != [] && ops[Loosest(ops)] == Pow
    ensures Loosest(ops) == 0 && forall i :: 0 <= i < |ops| ==> ops[i] == Pow
  {
    var k := Loosest(ops);
    hide Loosest, Rank;
    assert GroupsRight(ops[k]);
    forall i | 0 <= i < |ops| ensures i >= k && ops[i] == Pow {
      Tightest(ops[i]);
    }
    assert ops[0] == Pow;
  }

  lemma Tightest(op: BinOp)
    ensures Rank(op) <= Rank(Pow) && (Rank(op) == Rank(Pow) ==> op == Pow)
  {
  }

  // ----- and needs no parentheses -----

  /** The root is one of the operators, or there is none in front. */
  lemma {:induction false} RootOf(xs: seq<Operand>, ops: seq<BinOp>)
    requires IsChain(xs, ops)
    ensures var t := Grouped(xs, ops); t.TextBin? ==> t.bop in ops
    decreases |ops|, |xs[0].prefix|
  {
  }

  lemma {:induction false} GroupedFits(xs: seq<Operand>, ops: seq<BinOp>)
    requires IsChain(xs, ops)
    ensures Fits(Grouped(xs, ops))
    decreases |ops|, |xs[0].prefix|
  {
    if ops != [] && ops[Loosest(ops)] != Pow {
      var k := Loosest(ops);
      GroupedFits(xs[..k + 1], ops[..k]);
      GroupedFits(xs[k + 1..], ops[k + 1..]);
      RootOf(xs[..k + 1], ops[..k]);
      RootOf(xs[k + 1..], ops[k + 1..]);
      SidesFit(Grouped(xs[..k + 1], ops[..k]), Grouped(xs[k + 1..], ops[k + 1..]), ops, k);
    } else if xs[0].prefix != [] {
      var xs' := xs[0 := Operand(xs[0].prefix[1..], xs[0].body)];
      GroupedFits(xs', ops);
      RootOf(xs', ops);
      if ops != [] { OnlyPow(ops); }
    } else if ops != [] {
      OnlyPow(ops);
      GroupedFits(xs[1..], ops[1..]);
      RootOf(xs[1..], ops[1..]);
    }
  }

  lemma SidesFit(l: Text, r: Text, ops: seq<BinOp>, k: nat)
    requires k < |ops| && k == Loosest(ops) && ops[k] != Pow
    requires (l.TextBin? ==> l.bop in ops[..k]) && (r.TextBin? ==> r.bop in ops[k + 1..])
    ensures Closes(l, Left(ops[k])) && Above(r, Right(ops[k]))
  {
    hide Loosest;
    if l.TextBin? {
      var i :| 0 <= i < k && ops[..k][i] == l.bop;
      assert ops[i] == l.bop;
    }
    if r.TextBin? {
      var i :| 0 <= i < |ops| - k - 1 && ops[k + 1..][i] == r.bop;
      assert ops[k + 1 + i] == r.bop;
    }
  }

  /** An expression is read as the tree that the order of its operators gives, whatever follows it that is no binary
      operator, or overflows when it nests too deep. */
  lemma ReadInOrder(xs: seq<Operand>, ops: seq<BinOp>, rest: seq<Token>, levels: nat)
    requires IsChain(xs, ops) && (rest != [] ==> GetBinOpr(rest[0]).None?)
    ensures var t := Grouped(xs, ops);
            SubExpr(ChainTokens(xs, ops) + rest, 0, levels) == if levels > Inner(t) then Ok(Tree(t), rest) else Overflow
  {
    GroupedFits(xs, ops);
    GroupedTokens(xs, ops);
    if Grouped(xs, ops).TextBin? { PrioritiesAre(Add, Grouped(xs, ops).bop); }
    Reads(Grouped(xs, ops), rest, 0, levels);
  }

  // ----- two operators -----

  /** A text with its parentheses in order, from the beginning. */
  lemma ReadText(t: Text, toks: seq<Token>, rest: seq<Token>)
    requires Fits(t) && Flat(t) == toks && Inner(t) < 200 && (rest != [] ==> GetBinOpr(rest[0]).None?)
    ensures SubExpr(toks + rest, 0, 200) == Ok(Tree(t), rest)
  {
    if t.TextBin? { PrioritiesAre(Add, t.bop); }
    Reads(t, rest, 0, 200);
  }

  /** `x a y b z`. */
  lemma TwoOperators(a: BinOp, b: BinOp, x: int, y: int, z: int, rest: seq<Token>)
    requires rest != [] ==> GetBinOpr(rest[0]).None?
    ensures SubExpr([TAtom(x), BinToken(a), TAtom(y), BinToken(b), TAtom(z)] + rest, 0, 200) ==
            Ok(if SecondTakes(a, b) then Bin(a, Atom(x), Bin(b, Atom(y), Atom(z))) else Bin(b, Bin(a, Atom(x), Atom(y)), Atom(z)), rest)
  {
    hide SubExpr, Left, Right, SecondTakes, GetBinOpr, BinToken;
    PrioritiesAre(a, b);
    var tx, ty, tz := TextAtom(x), TextAtom(y), TextAtom(z);
    var t := if SecondTakes(a, b) then TextBin(a, tx, TextBin(b, ty, tz)) else TextBin(b, TextBin(a, tx, ty), tz);
    assert Flat(TextBin(b, ty, tz)) == [TAtom(y), BinToken(b), TAtom(z)];
    assert Flat(TextBin(a, tx, ty)) == [TAtom(x), BinToken(a), TAtom(y)];
    assert Inner(TextBin(b, ty, tz)) == 1 && Inner(TextBin(a, tx, ty)) == 1;
    assert Tree(TextBin(b, ty, tz)) == Bin(b, Atom(y), Atom(z)) && Tree(TextBin(a, tx, ty)) == Bin(a, Atom(x), Atom(y));
    ReadText(t, [TAtom(x), BinToken(a), TAtom(y), BinToken(b), TAtom(z)], rest);
  }

  /** `u x b y`: the unary operator comes first, except before `^`. */
  lemma UnaryFirst(u: UnOp, b: BinOp, x: int, y: int, rest: seq<Token>)
    requires rest != [] ==> GetBinOpr(rest[0]).None?
    ensures SubExpr([UnToken(u), TAtom(x), BinToken(b), TAtom(y)] + rest, 0, 200) ==
            Ok(if b == Pow then Un(u, Bin(Pow, Atom(x), Atom(y))) else Bin(b, Un(u, Atom(x)), Atom(y)), rest)
  {
    hide SubExpr, Left, Right, SecondTakes, GetBinOpr, BinToken, UnToken;
    PrioritiesAre(b, b);
    if b != Pow { UnaryCloses(b); }
    var tx, ty := TextAtom(x), TextAtom(y);
    var t := if b == Pow then TextUn(u, TextBin(b, tx, ty)) else TextBin(b, TextUn(u, tx), ty);
    assert Flat(TextBin(b, tx, ty)) == [TAtom(x), BinToken(b), TAtom(y)] && Flat(TextUn(u, tx)) == [UnToken(u), TAtom(x)];
    assert Inner(TextBin(b, tx, ty)) == 1 && Inner(TextUn(u, tx)) == 1;
    assert Tree(TextBin(b, tx, ty)) == Bin(b, Atom(x), Atom(y)) && Tree(TextUn(u, tx)) == Un(u, Atom(x));
    ReadText(t, [UnToken(u), TAtom(x), BinToken(b), TAtom(y)], rest);
  }

  lemma UnaryCloses(b: BinOp)
    requires b != Pow
    ensures Left(b) <= UNARY_PRIORITY
  {
  }

  /** `x a u y b z`: the unary operator takes its operand, with a `^` after that; other operators are as without it. */
  lemma UnaryBetween(a: BinOp, u: UnOp, b: BinOp, x: int, y: int, z: int, rest: seq<Token>)
    requires rest != [] ==> GetBinOpr(rest[0]).None?
    ensures SubExpr([TAtom(x), BinToken(a), UnToken(u), TAtom(y), BinToken(b), TAtom(z)] + rest, 0, 200) ==
            Ok(if b == Pow then Bin(a, Atom(x), Un(u, Bin(Pow, Atom(y), Atom(z))))
               else if SecondTakes(a, b) then Bin(a, Atom(x), Bin(b, Un(u, Atom(y)), Atom(z)))
               else Bin(b, Bin(a, Atom(x), Un(u, Atom(y))), Atom(z)), rest)
  {
    hide SubExpr, Left, Right, SecondTakes, GetBinOpr, BinToken, UnToken;
    PrioritiesAre(a, b);
    var tx, ty, tz := TextAtom(x), TextAtom(y), TextAtom(z);
    var uy, yz := TextUn(u, ty), TextBin(b, ty, tz);
    assert Flat(uy) == [UnToken(u), TAtom(y)] && Flat(yz) == [TAtom(y), BinToken(b), TAtom(z)];
    assert Inner(uy) == 1 && Inner(yz) == 1;
    assert Tree(uy) == Un(u, Atom(y)) && Tree(yz) == Bin(b, Atom(y), Atom(z));
    assert Fits(tx) && Fits(ty) && Fits(tz) && Fits(uy) && Fits(yz);
    if b == Pow {
      assert Flat(TextUn(u, yz)) == [UnToken(u), TAtom(y), BinToken(b), TAtom(z)] && Inner(TextUn(u, yz)) == 2;
      assert Tree(TextUn(u, yz)) == Un(u, Tree(yz)) && Fits(TextUn(u, yz));
      ReadText(TextBin(a, tx, TextUn(u, yz)), [TAtom(x), BinToken(a), UnToken(u), TAtom(y), BinToken(b), TAtom(z)], rest);
    } else {
      UnaryCloses(b);
      var xy := TextBin(a, tx, uy);
      var t := if SecondTakes(a, b) then TextBin(a, tx, TextBin(b, uy, tz)) else TextBin(b, xy, tz);
      assert Flat(xy) == [TAtom(x), BinToken(a), UnToken(u), TAtom(y)] && Inner(xy) == 2;
      assert Flat(TextBin(b, uy, tz)) == [UnToken(u), TAtom(y), BinToken(b), TAtom(z)] && Inner(TextBin(b, uy, tz)) == 1;
      assert Tree(xy) == Bin(a, Atom(x), Tree(uy)) && Tree(TextBin(b, uy, tz)) == Bin(b, Tree(uy), Atom(z));
      assert Fits(xy) && Fits(TextBin(b, uy, tz));
      ReadText(t, [TAtom(x), BinToken(a), UnToken(u), TAtom(y), BinToken(b), TAtom(z)], rest);
    }
  }
}
