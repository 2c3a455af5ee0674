/** Operator-precedence parsing in lparser.c: which token lists `subexpr` reads, and as which trees. */
module Operators {
  import opened Wrappers

  datatype BinOp =
    | Add | Sub | Mul | Mod | Pow | Div | IDiv | BAnd | BOr | BXor | Shl | Shr | Concat
    | Eq | Lt | Le | Ne | Gt | Ge | And | Or

  datatype UnOp = Minus | BNot | Not | Len

  /** Operators and parentheses; an atom stands for any other simple expression. The tokens `-` and `~` serve as unary
      and as binary operators. */
  datatype Token =
    | TAtom(id: int) | TOpen | TClose | TMinus | TTilde | TNot | THash
    | TOp(op: BinOp)
    | TOther

  /** The tokens of a binary operator other than `-` and `~`. */
  function BinToken(op: BinOp): (t: Token)
    ensures GetBinOpr(t) == Some(op)
  {
    if op.Sub? then TMinus else if op.BXor? then TTilde else TOp(op)
  }

  function UnToken(op: UnOp): (t: Token)
    ensures GetUnOpr(t) == Some(op)
  {
    match op
    case Minus => TMinus
    case BNot => TTilde
    case Not => TNot
    case Len => THash
  }

  /** `getunopr` */
  function GetUnOpr(t: Token): Option<UnOp> {
    match t
    case TMinus => Some(Minus)
    case TTilde => Some(BNot)
    case TNot => Some(Not)
    case THash => Some(Len)
    case _ => None
  }

  /** `getbinopr` */
  function GetBinOpr(t: Token): Option<BinOp> {
    match t
    case TMinus => Some(Sub)
    case TTilde => Some(BXor)
    case TOp(op) => if op.Sub? || op.BXor? then None else Some(op)
    case _ => None
  }

  function Left(op: BinOp): nat {
    match op
    case Or => 1
    case And => 2
    case Eq => 3 case Lt => 3 case Le => 3 case Ne => 3 case Gt => 3 case Ge => 3
    case BOr => 4
    case BXor => 5
    case BAnd => 6
    case Shl => 7 case Shr => 7
    case Concat => 9
    case Add => 10 case Sub => 10
    case Mul => 11 case Mod => 11 case Div => 11 case IDiv => 11
    case Pow => 14
  }

  function Right(op: BinOp): nat {
    match op
    case Concat => 8
    case Pow => 13
    case _ => Left(op)
  }

  const UNARY_PRIORITY := 12
  const LUAI_MAXCCALLS := 200

  datatype Expr = Atom(id: int) | Un(uop: UnOp, arg: Expr) | Bin(bop: BinOp, left: Expr, right: Expr)

  // ----- the parser -----

  datatype Outcome = Ok(e: Expr, rest: seq<Token>) | SyntaxError | Overflow

  /** `subexpr`, with `levels` nested calls still allowed. */
  function SubExpr(toks: seq<Token>, limit: nat, levels: nat): (r: Outcome)
    ensures r.Ok? ==> |r.rest| < |toks|
    decreases |toks|, 1
  {
    if levels == 0 then Overflow
    else
      var head :=
        if toks != [] && GetUnOpr(toks[0]).Some? then
          var r := SubExpr(toks[1..], UNARY_PRIORITY, levels - 1);
          if r.Ok? then Ok(Un(GetUnOpr(toks[0]).value, r.e), r.rest) else r
        else SimpleExp(toks, levels - 1);
      if head.Ok? then Expand(head.e, head.rest, limit, levels - 1) else head
  }

  /** `simpleexp`: an atom or an expression in parentheses. */
  function SimpleExp(toks: seq<Token>, levels: nat): (r: Outcome)
    ensures r.Ok? ==> |r.rest| < |toks|
    decreases |toks|, 0
  {
    if toks == [] then SyntaxError
    else if toks[0].TAtom? then Ok(Atom(toks[0].id), toks[1..])
    else if toks[0].TOpen? then
      var r := SubExpr(toks[1..], 0, levels);
      if !r.Ok? then r
      else if r.rest != [] && r.rest[0].TClose? then Ok(r.e, r.rest[1..]) else SyntaxError
    else SyntaxError
  }

  /** The loop of `subexpr`: binary operators with a priority above the limit. */
  function Expand(e: Expr, toks: seq<Token>, limit: nat, levels: nat): (r: Outcome)
    ensures r.Ok? ==> |r.rest| <= |toks|
    decreases |toks|, 1
  {
    if toks != [] && GetBinOpr(toks[0]).Some? && Left(GetBinOpr(toks[0]).value) > limit then
      var op := GetBinOpr(toks[0]).value;
      var r := SubExpr(toks[1..], Right(op), levels);
      if r.Ok? then Expand(Bin(op, e, r.e), r.rest, limit, levels) else r
    else Ok(e, toks)
  }

  // ----- expressions with parentheses -----

  /** An expression as it is written: the tree and its parentheses. */
  datatype Text = TextAtom(id: int) | Paren(inner: Text) | TextUn(uop: UnOp, arg: Text) | TextBin(bop: BinOp, left: Text, right: Text)

  function Flat(t: Text): (r: seq<Token>)
    ensures |r| > 0
  {
    match t
    case TextAtom(id) => [TAtom(id)]
    case Paren(inner) => [TOpen] + Flat(inner) + [TClose]
    case TextUn(op, arg) => [UnToken(op)] + Flat(arg)
    case TextBin(op, l, r) => Flat(l) + [BinToken(op)] + Flat(r)
  }

  function Tree(t: Text): Expr {
    match t
    case TextAtom(id) => Atom(id)
    case Paren(inner) => Tree(inner)
    case TextUn(op, arg) => Un(op, Tree(arg))
    case TextBin(op, l, r) => Bin(op, Tree(l), Tree(r))
  }

  /** Written without parentheses, `t` may stand where only operators of priority above `limit` are read. */
  predicate Above(t: Text, limit: nat) {
    t.TextBin? ==> Left(t.bop) > limit
  }

  /** Written without parentheses, `t` does not read past its end into an operator of priority `p`. */
  predicate Closes(t: Text, p: nat) {
    && (t.TextBin? ==> p <= Right(t.bop))
    && (t.TextUn? ==> p <= UNARY_PRIORITY)
  }

  /** The parentheses that the priorities require are there; others may be, too. */
  predicate Fits(t: Text) {
    match t
    case TextAtom(_) => true
    case Paren(inner) => Fits(inner)
    case TextUn(_, arg) => Fits(arg) && Above(arg, UNARY_PRIORITY)
    case TextBin(op, l, r) => Fits(l) && Fits(r) && Closes(l, Left(op)) && Above(r, Right(op))
  }

  /** Nested calls of `subexpr` that reading `t` takes, in a call already made and from a new one. */
  function Inner(t: Text): nat {
    match t
    case TextAtom(_) => 0
    case Paren(inner) => 1 + Inner(inner)
    case TextUn(_, arg) => 1 + Inner(arg)
    case TextBin(_, l, r) => if Inner(l) > 1 + Inner(r) then Inner(l) else 1 + Inner(r)
  }

  /** The tokens that follow are not read at this limit. */
  predicate Stops(toks: seq<Token>, limit: nat) {
    toks != [] && GetBinOpr(toks[0]).Some? ==> Left(GetBinOpr(toks[0]).value) <= limit
  }

  // ----- every text that fits is read as its tree -----

  /** What does not go on at one limit does not go on inside an operand either. */
  lemma StopsInside(toks: seq<Token>, limit: nat, op: BinOp)
    requires Stops(toks, limit) && Left(op) > limit
    ensures Stops(toks, Right(op))
  {
  }

  lemma StopsUnary(toks: seq<Token>, limit: nat)
    requires Stops(toks, limit) && limit <= 13
    ensures Stops(toks, UNARY_PRIORITY)
  {
  }

  function Enough(t: Text, e: Expr, toks: seq<Token>, limit: nat, levels: nat): Outcome {
    if levels >= Inner(t) then Expand(e, toks, limit, levels) else Overflow
  }

  /** The head of a `subexpr` call and what its loop has read so far. */
  function HeadOf(toks: seq<Token>, levels: nat): Outcome {
    if toks != [] && GetUnOpr(toks[0]).Some? then
      var r := SubExpr(toks[1..], UNARY_PRIORITY, levels);
      if r.Ok? then Ok(Un(GetUnOpr(toks[0]).value, r.e), r.rest) else r
    else SimpleExp(toks, levels)
  }

  function Continue(head: Outcome, limit: nat, levels: nat): Outcome {
    if head.Ok? then Expand(head.e, head.rest, limit, levels) else head
  }

  lemma SubExprIs(toks: seq<Token>, limit: nat, levels: nat)
    ensures SubExpr(toks, limit, levels) ==
            if levels == 0 then Overflow else Continue(HeadOf(toks, levels - 1), limit, levels - 1)
  {
  }

  /** Reading `t` in a call already made comes to the same as having read it and going on. */
  lemma {:induction false} ReadsInPlace(t: Text, rest: seq<Token>, limit: nat, levels: nat)
    requires Fits(t) && Above(t, limit) && limit <= 13
    requires t.TextBin? ==> Stops(rest, Right(t.bop))
    requires t.TextUn? ==> Stops(rest, UNARY_PRIORITY)
    ensures Continue(HeadOf(Flat(t) + rest, levels), limit, levels) == Enough(t, Tree(t), rest, limit, levels)
    decreases t, 0
  {
    match t
    case TextAtom(id) =>
      assert (Flat(t) + rest)[1..] == rest;
    case Paren(inner) =>
      assert (Flat(t) + rest)[1..] == Flat(inner) + ([TClose] + rest);
      Reads(inner, [TClose] + rest, 0, levels);
      assert ([TClose] + rest)[1..] == rest;
    case TextUn(op, arg) =>
      assert (Flat(t) + rest)[1..] == Flat(arg) + rest;
      Reads(arg, rest, UNARY_PRIORITY, levels);
    case TextBin(op, l, r) =>
      var tail := [BinToken(op)] + (Flat(r) + rest);
      assert Flat(t) + rest == Flat(l) + tail;
      assert Stops(tail, Left(op));
      ReadsInPlace(l, tail, limit, levels);
      assert tail[1..] == Flat(r) + rest;
      Reads(r, rest, Right(op), levels);
      BinaryRead(op, l, r, rest, limit, levels);
      hide Continue, HeadOf, Enough, Closes, Stops, Above;
  }

  /** The loop reads the operator and the second operand. */
  lemma BinaryRead(op: BinOp, l: Text, r: Text, rest: seq<Token>, limit: nat, levels: nat)
    requires Left(op) > limit
    requires SubExpr(Flat(r) + rest, Right(op), levels) == if levels > Inner(r) then Ok(Tree(r), rest) else Overflow
    ensures var t := TextBin(op, l, r); var tail := [BinToken(op)] + (Flat(r) + rest);
            Enough(l, Tree(l), tail, limit, levels) == Enough(t, Tree(t), rest, limit, levels)
  {
    var tail := [BinToken(op)] + (Flat(r) + rest);
    assert tail[1..] == Flat(r) + rest;
    hide SubExpr;
  }

  lemma {:induction false} Reads(t: Text, rest: seq<Token>, limit: nat, levels: nat)
    requires Fits(t) && Above(t, limit) && Stops(rest, limit) && limit <= 13
    ensures SubExpr(Flat(t) + rest, limit, levels) == if levels > Inner(t) then Ok(Tree(t), rest) else Overflow
    decreases t, 1
  {
    if levels > 0 {
      if t.TextBin? {
        StopsInside(rest, limit, t.bop);
      }
      StopsUnary(rest, limit);
      SubExprIs(Flat(t) + rest, limit, levels);
      ReadsInPlace(t, rest, limit, levels - 1);
    }
  }

  // ----- and nothing else is read -----

  lemma {:induction false} Read(toks: seq<Token>, limit: nat, levels: nat) returns (t: Text)
    requires SubExpr(toks, limit, levels).Ok? && limit <= 13
    ensures var r := SubExpr(toks, limit, levels);
            && toks == Flat(t) + r.rest && Tree(t) == r.e && Fits(t) && Above(t, limit) && Stops(r.rest, limit)
            && levels > Inner(t)
    decreases |toks|, 2
  {
    SubExprIs(toks, limit, levels);
    hide SubExpr;
    var head := HeadOf(toks, levels - 1);
    var first := ReadHead(toks, levels - 1);
    hide HeadOf;
    t := ReadOn(first, head.rest, limit, levels - 1);
  }

  lemma {:induction false} ReadHead(toks: seq<Token>, levels: nat) returns (t: Text)
    requires HeadOf(toks, levels).Ok?
    ensures var r := HeadOf(toks, levels);
            && toks == Flat(t) + r.rest && Tree(t) == r.e && Fits(t) && !t.TextBin? && levels >= Inner(t)
            && (t.TextUn? ==> Stops(r.rest, UNARY_PRIORITY))
    decreases |toks|, 1
  {
    hide SubExpr;
    if toks != [] && GetUnOpr(toks[0]).Some? {
      var arg := Read(toks[1..], UNARY_PRIORITY, levels);
      t := TextUn(GetUnOpr(toks[0]).value, arg);
      assert toks == [toks[0]] + toks[1..];
      assert toks == Flat(t) + HeadOf(toks, levels).rest;
    } else {
      t := ReadSimple(toks, levels);
    }
  }

  lemma {:induction false} ReadSimple(toks: seq<Token>, levels: nat) returns (t: Text)
    requires SimpleExp(toks, levels).Ok?
    ensures var r := SimpleExp(toks, levels);
            toks == Flat(t) + r.rest && Tree(t) == r.e && Fits(t) && (t.TextAtom? || t.Paren?) && levels >= Inner(t)
    decreases |toks|, 0
  {
    assert toks == [toks[0]] + toks[1..];
    if toks[0].TAtom? {
      t := TextAtom(toks[0].id);
    } else {
      var inner := Read(toks[1..], 0, levels);
      t := Paren(inner);
      var rest := SubExpr(toks[1..], 0, levels).rest;
      assert rest == [TClose] + rest[1..];
      assert toks == Flat(t) + rest[1..];
    }
  }

  lemma {:induction false} ReadOn(first: Text, toks: seq<Token>, limit: nat, levels: nat) returns (t: Text)
    requires Expand(Tree(first), toks, limit, levels).Ok? && limit <= 13
    requires Fits(first) && Above(first, limit) && levels >= Inner(first)
    requires (first.TextBin? ==> Stops(toks, Right(first.bop))) && (first.TextUn? ==> Stops(toks, UNARY_PRIORITY))
    ensures var r := Expand(Tree(first), toks, limit, levels);
            && Flat(first) + toks == Flat(t) + r.rest && Tree(t) == r.e && Fits(t) && Above(t, limit) && Stops(r.rest, limit)
            && levels >= Inner(t)
    decreases |toks|, 1
  {
    hide SubExpr;
    t := first;
    if toks != [] && GetBinOpr(toks[0]).Some? && Left(GetBinOpr(toks[0]).value) > limit {
      var op := GetBinOpr(toks[0]).value;
      var right := Read(toks[1..], Right(op), levels);
      var rest := SubExpr(toks[1..], Right(op), levels).rest;
      var next := TextBin(op, first, right);
      assert toks == [BinToken(op)] + toks[1..];
      assert Flat(first) + toks == Flat(next) + rest;
      t := ReadOn(next, rest, limit, levels);
    }
  }

  /** `expr` accepts a token list, up to a token that cannot continue it, exactly when the list is some expression
      written with at least the parentheses its priorities require; and then it gives that expression. */
  lemma AcceptsExactly(toks: seq<Token>, e: Expr, levels: nat)
    ensures SubExpr(toks, 0, levels) == Ok(e, []) <==>
            exists t: Text :: Flat(t) == toks && Fits(t) && Tree(t) == e && Inner(t) < levels
  {
    if SubExpr(toks, 0, levels) == Ok(e, []) {
      var t := Read(toks, 0, levels);
      assert Flat(t) == toks;
    }
    forall t: Text | Flat(t) == toks && Fits(t) && Tree(t) == e && Inner(t) < levels
      ensures SubExpr(toks, 0, levels) == Ok(e, [])
    {
      Reads(t, [], 0, levels);
      assert Flat(t) + [] == toks;
    }
  }

  /** So the required parentheses leave no ambiguity. */
  lemma Unambiguous(a: Text, b: Text)
    requires Fits(a) && Fits(b) && Flat(a) == Flat(b)
    ensures Tree(a) == Tree(b)
  {
    var levels := Inner(a) + Inner(b) + 1;
    Reads(a, [], 0, levels);
    Reads(b, [], 0, levels);
  }

  // ----- printing with no more parentheses than required -----

  function Wrapped(t: Text, bare: bool): Text {
    if bare then t else Paren(t)
  }

  function Minimal(e: Expr): Text {
    match e
    case Atom(id) => TextAtom(id)
    case Un(op, a) => var t := Minimal(a); TextUn(op, Wrapped(t, Above(t, UNARY_PRIORITY)))
    case Bin(op, a, b) =>
      var l, r := Minimal(a), Minimal(b);
      TextBin(op, Wrapped(l, Closes(l, Left(op))), Wrapped(r, Above(r, Right(op))))
  }

  lemma {:induction false} MinimalFits(e: Expr)
    ensures Fits(Minimal(e)) && Tree(Minimal(e)) == e && !Minimal(e).Paren?
  {
    match e
    case Atom(_) =>
    case Un(_, a) => MinimalFits(a);
    case Bin(_, a, b) =>
      MinimalFits(a);
      MinimalFits(b);
  }

  /** Printing any tree with only the required parentheses and parsing it gives the tree back, consumes exactly its
      tokens, and takes exactly `Inner` nested calls. */
  lemma PrintThenParse(e: Expr, rest: seq<Token>, levels: nat)
    requires Stops(rest, 0)
    ensures SubExpr(Flat(Minimal(e)) + rest, 0, levels) == if levels > Inner(Minimal(e)) then Ok(e, rest) else Overflow
  {
    MinimalFits(e);
    Reads(Minimal(e), rest, 0, levels);
  }

  /** No other text of the same tree is shorter. */
  lemma {:induction false} MinimalIsShortest(t: Text)
    requires Fits(t)
    ensures |Flat(Minimal(Tree(t)))| + (if t.Paren? then 2 else 0) <= |Flat(t)|
    ensures t.TextUn? ==> Minimal(Tree(t)).TextUn?
    ensures t.TextBin? ==> Minimal(Tree(t)).TextBin? && Minimal(Tree(t)).bop == t.bop
    ensures t.TextAtom? ==> Minimal(Tree(t)).TextAtom?
  {
    match t
    case TextAtom(_) =>
    case Paren(inner) => MinimalIsShortest(inner);
    case TextUn(_, arg) => MinimalIsShortest(arg);
    case TextBin(_, l, r) =>
      MinimalIsShortest(l);
      MinimalIsShortest(r);
  }

  // ----- the parser as lparser.c has it -----

  /** A token list with a position, and the count of nested C calls. */
  class LexState {
    const toks: seq<Token>
    var pos: nat
    var nCcalls: nat

    constructor (toks: seq<Token>)
      ensures this.toks == toks && pos == 0 && nCcalls == 0
    {
      this.toks, pos, nCcalls := toks, 0, 0;
    }

    function Ahead(): seq<Token>
      requires pos <= |toks|
      reads this
    {
      toks[pos..]
    }

    function Current(): Token
      reads this
    {
      if pos < |toks| then toks[pos] else TOther
    }

    function Levels(): nat
      reads this
    {
      if nCcalls < 200 then 199 - nCcalls else 0
    }

    /** What a call has read agrees with the function that specifies it. */
    twostate predicate Did(spec: Outcome, got: Outcome)
      reads this
    {
      && got == spec && pos <= |toks|
      && (got.Ok? ==> pos >= old(pos) && got.rest == toks[pos..] && nCcalls == old(nCcalls))
    }

    /** `subexpr` */
    method SubExprOf(limit: nat) returns (r: Outcome)
      requires pos <= |toks|
      modifies this`pos, this`nCcalls
      ensures Did(SubExpr(old(Ahead()), limit, old(Levels())), r)
      decreases |toks| - pos, 2
    {
      hide SubExpr;
      ghost var start := Ahead();
      ghost var levels := Levels();
      SubExprIs(start, limit, levels);
      nCcalls := nCcalls + 1;
      if nCcalls >= LUAI_MAXCCALLS {
        return Overflow;
      }
      assert Levels() == levels - 1;
      r := HeadExpr();
      hide HeadOf;
      if !r.Ok? {
        return;
      }
      var op := GetBinOpr(Current());
      while op.Some? && Left(op.value) > limit
        invariant r.Ok? && pos <= |toks| && old(pos) < pos && r.rest == Ahead() && op == GetBinOpr(Current())
        invariant nCcalls == old(nCcalls) + 1
        invariant Expand(r.e, r.rest, limit, levels - 1) == SubExpr(start, limit, levels)
        decreases |toks| - pos
      {
        var left := r;
        pos := pos + 1;
        assert Ahead() == left.rest[1..];
        var right := SubExprOf(Right(op.value));
        if !right.Ok? {
          return right;
        }
        r := Ok(Bin(op.value, left.e, right.e), right.rest);
        op := GetBinOpr(Current());
      }
      nCcalls := nCcalls - 1;
    }

    /** What `subexpr` does before its loop. */
    method HeadExpr() returns (r: Outcome)
      requires pos <= |toks|
      modifies this`pos, this`nCcalls
      ensures Did(HeadOf(old(Ahead()), old(Levels())), r)
      ensures r.Ok? ==> pos > old(pos)
      decreases |toks| - pos, 1
    {
      hide SubExpr, SimpleExp;
      ghost var start := Ahead();
      var uop := GetUnOpr(Current());
      if uop.Some? {
        pos := pos + 1;
        assert Ahead() == start[1..];
        r := SubExprOf(UNARY_PRIORITY);
        if r.Ok? {
          r := Ok(Un(uop.value, r.e), r.rest);
        }
      } else {
        r := SimpleExpOf();
      }
    }

    /** `simpleexp`, with the parentheses of `primaryexp` */
    method SimpleExpOf() returns (r: Outcome)
      requires pos <= |toks|
      modifies this`pos, this`nCcalls
      ensures Did(SimpleExp(old(Ahead()), old(Levels())), r)
      ensures r.Ok? ==> pos > old(pos)
      decreases |toks| - pos, 0
    {
      ghost var start := Ahead();
      if Current().TAtom? {
        r := Ok(Atom(Current().id), toks[pos + 1..]);
        pos := pos + 1;
      } else if Current().TOpen? {
        pos := pos + 1;
        assert Ahead() == start[1..];
        r := SubExprOf(0);
        if !r.Ok? {
          return;
        }
        if !Current().TClose? {
          return SyntaxError;
        }
        r := Ok(r.e, toks[pos + 1..]);
        pos := pos + 1;
      } else {
        r := SyntaxError;
      }
    }
  }
}
