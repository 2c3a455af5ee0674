/** The `%q` quoting of lstrlib.c and the short strings of llex.c that have to undo it. */
module Quoted {
  import opened Wrappers
  import opened Utf8
  import opened Sanitize

  const MAX_INT := 0x7FFF_FFFF
  const EOZ := -1

  const LF: Byte := 10
  const CR: Byte := 13
  const QUOTE: Byte := 34
  const BACKSLASH: Byte := 92

  predicate IsDigit(c: int) { 48 <= c <= 57 }
  predicate IsXDigit(c: int) { IsDigit(c) || 65 <= c <= 70 || 97 <= c <= 102 }
  predicate IsCntrl(c: int) { 0 <= c < 32 || c == 127 }
  predicate IsSpace(c: int) { 9 <= c <= 13 || c == 32 }
  predicate IsNewline(c: int) { c == 10 || c == 13 }

  function HexValue(c: int): nat
    requires IsXDigit(c)
  {
    if IsDigit(c) then c - 48 else if c <= 70 then c - 55 else c - 87
  }

  // ----- writing -----

  /** `%d` for a byte. */
  function Decimal(n: Byte): (r: seq<Byte>) {
    if n < 10 then [48 + n]
    else if n < 100 then [48 + n / 10, 48 + n % 10]
    else [48 + n / 100, 48 + n / 10 % 10, 48 + n % 10]
  }

  /** `%03d` for a byte. */
  function Decimal3(n: Byte): seq<Byte> {
    [48 + n / 100, 48 + n / 10 % 10, 48 + n % 10]
  }

  /** What `addquoted` writes for the byte `c` when `next` comes after it. */
  function Piece(c: Byte, next: Byte): (r: seq<Byte>)
    ensures |r| > 0
  {
    if c == QUOTE || c == BACKSLASH || c == LF then [BACKSLASH, c]
    else if IsCntrl(c) then [BACKSLASH] + (if IsDigit(next) then Decimal3(c) else Decimal(c))
    else [c]
  }

  function Pieces(s: seq<Byte>): seq<Byte> {
    if s == [] then [] else Piece(s[0], At(s, 1)) + Pieces(s[1..])
  }

  /** `addquoted` */
  function AddQuoted(s: seq<Byte>): seq<Byte> {
    [QUOTE] + Pieces(s) + [QUOTE]
  }

  // ----- reading -----

  datatype LexError = UnfinishedAtEnd | Unfinished | HexExpected | MissingOpen | MissingClose | Utf8TooLarge
                    | InvalidEscape | DecimalTooLarge | TooManyLines

  /** Some bytes read, and where reading goes on. */
  datatype Lexed = Ok(s: seq<Byte>, pos: nat, line: nat) | Bad(error: LexError)

  /** `ls->current` at a position. */
  function Cur(z: seq<Byte>, pos: nat): int {
    if pos < |z| then z[pos] else EOZ
  }

  /** `inclinenumber` */
  function IncLine(z: seq<Byte>, pos: nat, line: nat): (r: Lexed)
    requires IsNewline(Cur(z, pos))
    ensures r.Ok? ==> pos < r.pos <= |z| && r.s == [LF]
  {
    var next := if IsNewline(Cur(z, pos + 1)) && Cur(z, pos + 1) != Cur(z, pos) then pos + 2 else pos + 1;
    if line + 1 >= MAX_INT then Bad(TooManyLines) else Ok([LF], next, line + 1)
  }

  /** The spaces after `\z`. */
  function Zap(z: seq<Byte>, pos: nat, line: nat): (r: Lexed)
    requires pos <= |z|
    ensures r.Ok? ==> pos <= r.pos <= |z| && r.s == []
    decreases |z| - pos
  {
    if !IsSpace(Cur(z, pos)) then Ok([], pos, line)
    else if IsNewline(Cur(z, pos)) then
      var l := IncLine(z, pos, line);
      if l.Bad? then l else Zap(z, l.pos, l.line)
    else Zap(z, pos + 1, line)
  }

  /** More hexadecimal digits of a `\u` escape. */
  function HexMore(z: seq<Byte>, pos: nat, r: nat): (res: (bool, nat, nat))
    requires pos <= |z| && r <= 0x7FFF_FFFF
    ensures res.0 ==> pos <= res.2 <= |z| && res.1 <= 0x7FFF_FFFF
    decreases |z| - pos
  {
    if !IsXDigit(Cur(z, pos)) then (true, r, pos)
    else if r > 0x7FF_FFFF then (false, 0, pos)
    else HexMore(z, pos + 1, r * 16 + HexValue(Cur(z, pos)))
  }

  /** `utf8esc`, with the `u` at `pos` */
  function Utf8Escape(z: seq<Byte>, pos: nat, line: nat): (r: Lexed)
    requires pos < |z|
    ensures r.Ok? ==> pos < r.pos <= |z|
  {
    if Cur(z, pos + 1) != 123 then Bad(MissingOpen)
    else if !IsXDigit(Cur(z, pos + 2)) then Bad(HexExpected)
    else
      var m := HexMore(z, pos + 3, HexValue(Cur(z, pos + 2)));
      if !m.0 then Bad(Utf8TooLarge)
      else if Cur(z, m.2) != 125 then Bad(MissingClose)
      else Ok(Esc(m.1), m.2 + 1, line)
  }

  /** Up to `left` decimal digits after a value `r`. */
  function Digits(z: seq<Byte>, pos: nat, left: nat, r: nat): (res: (nat, nat))
    requires pos <= |z|
    ensures pos <= res.1 <= |z|
    decreases left
  {
    if left > 0 && IsDigit(Cur(z, pos)) then Digits(z, pos + 1, left - 1, 10 * r + (Cur(z, pos) - 48)) else (r, pos)
  }

  function Simple(c: int): int {
    if c == 97 then 7 else if c == 98 then 8 else if c == 102 then 12 else if c == 110 then 10
    else if c == 114 then 13 else if c == 116 then 9 else if c == 118 then 11
    else if c == 92 || c == 34 || c == 39 then c else -1
  }

  /** The rest of an escape, after its backslash. */
  function Escape(z: seq<Byte>, pos: nat, line: nat): (r: Lexed)
    requires pos <= |z|
    ensures r.Ok? ==> pos <= r.pos <= |z|
  {
    var c := Cur(z, pos);
    if Simple(c) >= 0 then Ok([Simple(c)], pos + 1, line)
    else if c == 120 then
      (if !IsXDigit(Cur(z, pos + 1)) || !IsXDigit(Cur(z, pos + 2)) then Bad(HexExpected)
       else Ok([HexValue(Cur(z, pos + 1)) * 16 + HexValue(Cur(z, pos + 2))], pos + 3, line))
    else if c == 117 then Utf8Escape(z, pos, line)
    else if IsNewline(c) then IncLine(z, pos, line)
    else if c == EOZ then Ok([], pos, line)
    else if c == 122 then Zap(z, pos + 1, line)
    else if IsDigit(c) then
      var d := Digits(z, pos, 3, 0);
      if d.0 > 255 then Bad(DecimalTooLarge) else Ok([d.0], d.1, line)
    else Bad(InvalidEscape)
  }

  /** `read_string` after its opening delimiter. */
  function ReadBody(z: seq<Byte>, pos: nat, del: Byte, line: nat): (r: Lexed)
    requires pos <= |z|
    ensures r.Ok? ==> pos < r.pos <= |z|
    decreases |z| - pos
  {
    var c := Cur(z, pos);
    if c == del then Ok([], pos + 1, line)
    else if c == EOZ then Bad(UnfinishedAtEnd)
    else if IsNewline(c) then Bad(Unfinished)
    else if c == BACKSLASH then
      var e := Escape(z, pos + 1, line);
      if e.Bad? then e else Then(e.s, ReadBody(z, e.pos, del, e.line))
    else Then([c], ReadBody(z, pos + 1, del, line))
  }

  function Then(s: seq<Byte>, rest: Lexed): Lexed {
    if rest.Bad? then rest else Ok(s + rest.s, rest.pos, rest.line)
  }

  // ----- reading what was written -----

  function Newlines(s: seq<Byte>): nat {
    if s == [] then 0 else (if s[0] == LF then 1 else 0) + Newlines(s[1..])
  }

  /** `t` stands at `pos`. */
  ghost predicate Here(z: seq<Byte>, pos: nat, t: seq<Byte>) {
    pos + |t| <= |z| && z[pos..pos + |t|] == t
  }

  lemma HereAt(z: seq<Byte>, pos: nat, t: seq<Byte>, k: nat)
    requires Here(z, pos, t) && k < |t|
    ensures Cur(z, pos + k) == t[k]
  {
    assert z[pos..pos + |t|][k] == t[k];
  }

  /** The three digits of a byte. */
  lemma Digits3(z: seq<Byte>, pos: nat, n: Byte)
    requires Here(z, pos, Decimal3(n))
    ensures Digits(z, pos, 3, 0) == (n, pos + 3)
  {
    HereAt(z, pos, Decimal3(n), 0);
    HereAt(z, pos, Decimal3(n), 1);
    HereAt(z, pos, Decimal3(n), 2);
    assert 10 * (10 * (n / 100) + n / 10 % 10) + n % 10 == n;
    assert Digits(z, pos + 3, 0, n) == (n, pos + 3);
    assert Digits(z, pos + 2, 1, 10 * (n / 100) + n / 10 % 10) == (n, pos + 3);
    assert Digits(z, pos + 1, 2, n / 100) == (n, pos + 3);
  }

  /** Fewer digits, when no digit follows. */
  lemma DigitsFew(z: seq<Byte>, pos: nat, n: Byte)
    requires Here(z, pos, Decimal(n)) && n < 128 && !IsDigit(Cur(z, pos + |Decimal(n)|))
    ensures Digits(z, pos, 3, 0) == (n, pos + |Decimal(n)|)
  {
    if n >= 100 {
      Digits3(z, pos, n);
    } else {
      HereAt(z, pos, Decimal(n), 0);
      if n >= 10 {
        HereAt(z, pos, Decimal(n), 1);
        assert Digits(z, pos + 2, 1, n) == (n, pos + 2);
        assert Digits(z, pos + 1, 2, n / 10) == (n, pos + 2);
      } else {
        assert Digits(z, pos + 1, 2, n) == (n, pos + 1);
      }
    }
  }

  /** What may follow a piece: the next piece or the closing quote. */
  ghost predicate Follows(c: int, next: Byte) {
    c != LF && c != CR && (IsDigit(c) <==> IsDigit(next))
  }

  /** One piece is read as the byte it was written for. */
  lemma PieceRead(z: seq<Byte>, pos: nat, line: nat, c: Byte, next: Byte)
    requires Here(z, pos, Piece(c, next)) && Follows(Cur(z, pos + |Piece(c, next)|), next)
    ensures var rest := pos + |Piece(c, next)|; var line' := if c == LF then line + 1 else line;
            ReadBody(z, pos, QUOTE, line) ==
            if c == LF && line + 1 >= MAX_INT then Bad(TooManyLines) else Then([c], ReadBody(z, rest, QUOTE, line'))
  {
    var p := Piece(c, next);
    HereAt(z, pos, p, 0);
    if c == QUOTE || c == BACKSLASH || c == LF {
      HereAt(z, pos, p, 1);
      hide Here;
    } else if IsCntrl(c) {
      ControlRead(z, pos, line, c, next);
      hide Here, Escape, Piece;
    }
  }

  /** A control character, as one to three decimal digits. */
  lemma ControlRead(z: seq<Byte>, pos: nat, line: nat, c: Byte, next: Byte)
    requires IsCntrl(c) && c != LF
    requires Here(z, pos, Piece(c, next)) && Follows(Cur(z, pos + |Piece(c, next)|), next)
    ensures Cur(z, pos) == BACKSLASH && Escape(z, pos + 1, line) == Ok([c], pos + |Piece(c, next)|, line)
  {
    var d := if IsDigit(next) then Decimal3(c) else Decimal(c);
    assert Piece(c, next) == [BACKSLASH] + d;
    Cut(z, pos, [BACKSLASH], d);
    HereAt(z, pos, [BACKSLASH], 0);
    HereAt(z, pos + 1, d, 0);
    hide Here, Piece;
    if IsDigit(next) {
      Digits3(z, pos + 1, c);
    } else {
      DigitsFew(z, pos + 1, c);
    }
  }

  lemma Cut(z: seq<Byte>, pos: nat, a: seq<Byte>, b: seq<Byte>)
    requires Here(z, pos, a + b)
    ensures Here(z, pos, a) && Here(z, pos + |a|, b)
  {
    var all := a + b;
    assert z[pos..pos + |a|] == z[pos..pos + |all|][..|a|] == a;
    assert z[pos + |a|..pos + |all|] == z[pos..pos + |all|][|a|..] == b;
  }

  lemma {:induction false} PiecesRead(z: seq<Byte>, pos: nat, line: nat, s: seq<Byte>)
    requires Here(z, pos, Pieces(s) + [QUOTE])
    ensures ReadBody(z, pos, QUOTE, line) ==
            if Newlines(s) > 0 && line + Newlines(s) >= MAX_INT then Bad(TooManyLines)
            else Ok(s, pos + |Pieces(s)| + 1, line + Newlines(s))
    decreases |s|, 1
  {
    hide Escape, Piece;
    if s == [] {
      HereAt(z, pos, Pieces(s) + [QUOTE], 0);
    } else {
      PiecesReadOn(z, pos, line, s);
    }
  }

  lemma {:induction false} PiecesReadOn(z: seq<Byte>, pos: nat, line: nat, s: seq<Byte>)
    requires s != [] && Here(z, pos, Pieces(s) + [QUOTE])
    ensures ReadBody(z, pos, QUOTE, line) ==
            if Newlines(s) > 0 && line + Newlines(s) >= MAX_INT then Bad(TooManyLines)
            else Ok(s, pos + |Pieces(s)| + 1, line + Newlines(s))
    decreases |s|, 0
  {
    hide Escape, Piece, ReadBody;
    var next := At(s, 1);
    var p := Piece(s[0], next);
    var rest := Pieces(s[1..]) + [QUOTE];
    assert Pieces(s) + [QUOTE] == p + rest;
    Cut(z, pos, p, rest);
    HereAt(z, pos + |p|, rest, 0);
    FirstByte(s[1..]);
    assert At(s[1..], 0) == next;
    PieceRead(z, pos, line, s[0], next);
    PiecesRead(z, pos + |p|, if s[0] == LF then line + 1 else line, s[1..]);
    assert [s[0]] + s[1..] == s;
  }

  lemma FirstByte(s: seq<Byte>)
    ensures Follows((Pieces(s) + [QUOTE])[0], At(s, 0))
  {
    if s != [] {
      assert (Pieces(s) + [QUOTE])[0] == Piece(s[0], At(s, 1))[0];
    }
  }

  /** Reading what `%q` wrote, in whatever text it stands, consumes exactly that and gives the original bytes back; it
      fails exactly when the newlines in the string take the line counter to its maximum. */
  lemma QuotedRead(before: seq<Byte>, s: seq<Byte>, after: seq<Byte>, line: nat)
    ensures var z := before + AddQuoted(s) + after;
            ReadBody(z, |before| + 1, QUOTE, line) ==
            if Newlines(s) > 0 && line + Newlines(s) >= 0x7FFF_FFFF then Bad(TooManyLines)
            else Ok(s, |before| + |AddQuoted(s)|, line + Newlines(s))
  {
    var z := before + AddQuoted(s) + after;
    var t := Pieces(s) + [QUOTE];
    assert AddQuoted(s) == [QUOTE] + t;
    assert z == (before + [QUOTE]) + t + after;
    assert z[|before| + 1..|before| + 1 + |t|] == t;
    PiecesRead(z, |before| + 1, line, s);
  }

  // ----- the code -----

  lemma PiecesStep(s: seq<Byte>, i: nat)
    requires i < |s|
    ensures Pieces(s[i..]) == Piece(s[i], At(s, i + 1)) + Pieces(s[i + 1..])
  {
    assert s[i..][1..] == s[i + 1..];
  }

  /** One byte of `addquoted` */
  method AddPiece(b: seq<Byte>, c: Byte, next: Byte) returns (r: seq<Byte>)
    ensures r == b + Piece(c, next)
  {
    if c == QUOTE || c == BACKSLASH || c == LF {
      r := b + [BACKSLASH];
      r := r + [c];
    } else if IsCntrl(c) {
      if !IsDigit(next) {
        r := b + ([BACKSLASH] + Decimal(c));
      } else {
        r := b + ([BACKSLASH] + Decimal3(c));
      }
    } else {
      r := b + [c];
    }
  }

  /** `b` is what `addquoted` has written before it comes to byte `i`. */
  ghost predicate Written(s: seq<Byte>, i: nat, b: seq<Byte>)
    requires i <= |s|
  {
    b + Pieces(s[i..]) == [QUOTE] + Pieces(s)
  }

  lemma WrittenNext(s: seq<Byte>, i: nat, b: seq<Byte>)
    requires i < |s| && Written(s, i, b)
    ensures Written(s, i + 1, b + Piece(s[i], At(s, i + 1)))
  {
    PiecesStep(s, i);
    var p := Piece(s[i], At(s, i + 1));
    assert b + (p + Pieces(s[i + 1..])) == b + p + Pieces(s[i + 1..]);
  }

  lemma WrittenEnds(s: seq<Byte>, b: seq<Byte>)
    ensures Written(s, 0, [QUOTE])
    ensures Written(s, |s|, b) ==> b == [QUOTE] + Pieces(s)
  {
    assert s[0..] == s && s[|s|..] == [] && b + [] == b;
  }

  /** `addquoted` */
  method AddQuotedTo(s: seq<Byte>) returns (b: seq<Byte>)
    ensures b == AddQuoted(s)
  {
    hide Pieces, Piece, Written;
    b := [QUOTE];
    var i := 0;
    WrittenEnds(s, b);
    while i < |s|
      invariant 0 <= i <= |s| && Written(s, i, b)
    {
      WrittenNext(s, i, b);
      b := AddPiece(b, s[i], At(s, i + 1));
      i := i + 1;
    }
    WrittenEnds(s, b);
    b := b + [QUOTE];
  }

  lemma EndAfterBackslash(z: seq<Byte>, pos: nat, del: Byte, line: nat)
    requires pos <= |z| && Cur(z, pos) == BACKSLASH && Cur(z, pos + 1) == EOZ && del != BACKSLASH
    ensures ReadBody(z, pos, del, line) == Bad(UnfinishedAtEnd)
  {
    assert Escape(z, pos + 1, line) == Ok([], pos + 1, line);
  }

  /** The lexer: its input, where it is, the line count, and the buffer that keeps what was read for error messages. */
  class LexState {
    const z: seq<Byte>
    var pos: nat
    var linenumber: nat
    var buff: seq<Byte>

    constructor (z: seq<Byte>, pos: nat, linenumber: nat)
      requires pos <= |z|
      ensures this.z == z && this.pos == pos && this.linenumber == linenumber && buff == []
    {
      this.z, this.pos, this.linenumber, buff := z, pos, linenumber, [];
    }

    function Current(): int
      reads this
    {
      Cur(z, pos)
    }

    /** `save_and_next` */
    method SaveAndNext()
      requires pos < |z|
      modifies this`pos, this`buff
      ensures pos == old(pos) + 1 && buff == old(buff) + [z[old(pos)]]
    {
      buff := buff + [z[pos]];
      pos := pos + 1;
    }

    /** `luaZ_buffremove` */
    method BuffRemove(n: nat)
      requires n <= |buff|
      modifies this`buff
      ensures buff == old(buff)[..|old(buff)| - n]
    {
      buff := buff[..|buff| - n];
    }

    /** What a step has come to, when the part of the buffer that stays was `keep`. */
    ghost predicate Came(spec: Lexed, keep: seq<Byte>, err: Option<LexError>)
      reads this
    {
      if spec.Bad? then err == Some(spec.error)
      else err == None && pos == spec.pos && linenumber == spec.line && buff == keep + spec.s
    }

    /** `inclinenumber` */
    method IncLineNumber() returns (err: Option<LexError>)
      requires pos <= |z| && IsNewline(Current())
      modifies this`pos, this`linenumber
      ensures var spec := IncLine(z, old(pos), old(linenumber));
              if spec.Bad? then err == Some(spec.error) else err == None && pos == spec.pos && linenumber == spec.line
    {
      var was := Current();
      pos := pos + 1;
      if IsNewline(Current()) && Current() != was {
        pos := pos + 1;
      }
      linenumber := linenumber + 1;
      err := if linenumber >= MAX_INT then Some(TooManyLines) else None;
    }

    /** `readhexaesc`, from the `x` to the second digit. */
    method ReadHexaEsc() returns (err: Option<LexError>, r: nat)
      requires pos < |z|
      modifies this`pos, this`buff
      ensures if !IsXDigit(Cur(z, old(pos) + 1)) || !IsXDigit(Cur(z, old(pos) + 2)) then err == Some(HexExpected)
              else err == None && r == HexValue(Cur(z, old(pos) + 1)) * 16 + HexValue(Cur(z, old(pos) + 2))
                   && pos == old(pos) + 2 && buff == old(buff)
    {
      r := 0;
      SaveAndNext();
      if !IsXDigit(Current()) {
        return Some(HexExpected), 0;
      }
      r := HexValue(Current());
      SaveAndNext();
      if !IsXDigit(Current()) {
        return Some(HexExpected), 0;
      }
      r := r * 16 + HexValue(Current());
      BuffRemove(2);
      err := None;
    }

    /** `readutf8esc`: the saved characters are counted so that they can be removed, the backslash included. */
    method ReadUtf8Esc() returns (err: Option<LexError>, r: nat)
      requires pos < |z| && buff != []
      modifies this`pos, this`buff
      ensures err == None ==> r <= 0x7FFF_FFFF
      ensures var spec := Utf8Escape(z, old(pos), linenumber);
              if spec.Bad? then err == Some(spec.error)
              else err == None && spec == Lexed.Ok(Esc(r), pos, linenumber) && buff == old(buff)[..|old(buff)| - 1]
    {
      ghost var start := buff;
      r := 0;
      var i := 4;
      SaveAndNext();
      if Current() != 123 {
        return Some(MissingOpen), 0;
      }
      SaveAndNext();
      if !IsXDigit(Current()) {
        return Some(HexExpected), 0;
      }
      r := HexValue(Current());
      ghost var first := pos + 1;
      ghost var whole := HexMore(z, first, r);
      SaveAndNext();
      while IsXDigit(Current())
        invariant pos <= |z| && pos >= first && i == 4 + (pos - first) && r <= 0x7FFF_FFFF
        invariant |buff| == |start| + 3 + (pos - first) && buff[..|start|] == start
        invariant HexMore(z, pos, r) == whole
        decreases |z| - pos
      {
        i := i + 1;
        if r > 0x7FF_FFFF {
          return Some(Utf8TooLarge), 0;
        }
        r := r * 16 + HexValue(Current());
        ghost var was := buff;
        SaveAndNext();
        assert buff[..|start|] == was[..|start|];
      }
      if Current() != 125 {
        return Some(MissingClose), 0;
      }
      pos := pos + 1;
      ghost var was := buff;
      BuffRemove(i);
      assert buff == was[..|start|][..|start| - 1];
      err := None;
    }

    /** `readdecesc` */
    method ReadDecEsc() returns (err: Option<LexError>, r: nat)
      requires pos <= |z|
      modifies this`pos, this`buff
      ensures var d := Digits(z, old(pos), 3, 0);
              if d.0 > 255 then err == Some(DecimalTooLarge) else err == None && r == d.0 && pos == d.1 && buff == old(buff)
    {
      var i: nat := 0;
      r := 0;
      ghost var start := buff;
      while i < 3 && IsDigit(Current())
        invariant i <= 3 && pos <= |z| && |buff| == |start| + i && buff[..|start|] == start
        invariant Digits(z, pos, 3 - i, r) == Digits(z, old(pos), 3, 0)
      {
        r := 10 * r + (Current() - 48);
        ghost var was := buff;
        SaveAndNext();
        assert buff[..|start|] == was[..|start|];
        i := i + 1;
      }
      if r > 255 {
        return Some(DecimalTooLarge), 0;
      }
      BuffRemove(i);
      err := None;
    }

    /** The loop of `\z` */
    method ZapSpaces() returns (err: Option<LexError>)
      requires pos <= |z|
      modifies this`pos, this`linenumber
      ensures var spec := Zap(z, old(pos), old(linenumber));
              if spec.Bad? then err == Some(spec.error) else err == None && pos == spec.pos && linenumber == spec.line
    {
      while IsSpace(Current())
        invariant pos <= |z| && Zap(z, pos, linenumber) == Zap(z, old(pos), old(linenumber))
        decreases |z| - pos
      {
        if IsNewline(Current()) {
          err := IncLineNumber();
          if err.Some? {
            return;
          }
        } else {
          pos := pos + 1;
        }
      }
      err := None;
    }

    /** The escape sequences of `read_string`, with the backslash saved. */
    method ReadEscape(ghost keep: seq<Byte>) returns (err: Option<LexError>)
      requires pos <= |z| && buff == keep + [BACKSLASH]
      modifies this`pos, this`linenumber, this`buff
      ensures old(Current()) == EOZ ==> err == None && pos == old(pos)
      ensures old(Current()) != EOZ ==> Came(Escape(z, old(pos), old(linenumber)), keep, err)
    {
      err := None;
      var c := Current();
      if c == EOZ {
        return;
      }
      var final := 0;
      if Simple(c) >= 0 {
        final := Simple(c);
        pos := pos + 1;
      } else if c == 120 {
        err, final := ReadHexaEsc();
        if err.Some? {
          return;
        }
        pos := pos + 1;
      } else if c == 117 {
        var r;
        err, r := ReadUtf8Esc();
        if err.Some? {
          return;
        }
        var b := new Byte[UTF8BUFFSZ](_ => 0);
        var n := Utf8Esc(b, r);
        buff := buff + b[UTF8BUFFSZ - n..];
        return;
      } else if IsNewline(c) {
        err := IncLineNumber();
        if err.Some? {
          return;
        }
        final := LF;
      } else if c == 122 {
        BuffRemove(1);
        pos := pos + 1;
        err := ZapSpaces();
        assert buff == keep + [];
        return;
      } else if IsDigit(c) {
        err, final := ReadDecEsc();
        if err.Some? {
          return;
        }
      } else {
        return Some(InvalidEscape);
      }
      BuffRemove(1);
      buff := buff + [final];
    }

    /** `read_string`: the string between the delimiters, or the error raised. */
    method ReadString(del: Byte) returns (err: Option<LexError>, s: seq<Byte>)
      requires pos < |z| && z[pos] == del && buff == [] && del != BACKSLASH
      modifies this`pos, this`linenumber, this`buff
      ensures var spec := ReadBody(z, old(pos) + 1, del, old(linenumber));
              if spec.Bad? then err == Some(spec.error)
              else err == None && s == spec.s && pos == spec.pos && linenumber == spec.line && buff == [del] + s + [del]
    {
      hide Escape;
      ghost var whole := ReadBody(z, pos + 1, del, linenumber);
      s := [];
      SaveAndNext();
      ghost var done: seq<Byte> := [];
      while Current() != del
        invariant pos <= |z| && buff == [del] + done
        invariant Then(done, ReadBody(z, pos, del, linenumber)) == whole
        decreases |z| - pos
      {
        if Current() == EOZ {
          return Some(UnfinishedAtEnd), [];
        }
        if IsNewline(Current()) {
          return Some(Unfinished), [];
        }
        ghost var rest;
        if Current() == BACKSLASH {
          ghost var e := Escape(z, pos + 1, linenumber);
          if Cur(z, pos + 1) == EOZ {
            EndAfterBackslash(z, pos, del, linenumber);
          }
          SaveAndNext();
          if Current() == EOZ {
            return Some(UnfinishedAtEnd), [];
          }
          err := ReadEscape([del] + done);
          if err.Some? {
            return;
          }
          rest := ReadBody(z, e.pos, del, e.line);
          if rest.Ok? {
            assert done + (e.s + rest.s) == done + e.s + rest.s;
          }
          assert [del] + done + e.s == [del] + (done + e.s);
          done := done + e.s;
        } else {
          ghost var c := z[pos];
          rest := ReadBody(z, pos + 1, del, linenumber);
          if rest.Ok? {
            assert done + ([c] + rest.s) == done + [c] + rest.s;
          }
          SaveAndNext();
          assert [del] + done + [c] == [del] + (done + [c]);
          done := done + [c];
        }
      }
      assert done + [] == done;
      SaveAndNext();
      s := buff[1..|buff| - 1];
      assert s == done;
      err := None;
    }
  }
}
