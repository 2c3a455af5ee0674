/** What every escape sequence of a short string reads as, whatever stands around it, and what `%q` writes for each
    byte. */
module Escapes {
  import opened Wrappers
  import opened Utf8
  import opened Sanitize
  import opened Quoted

  // ----- escapes of one letter -----

  /** a, b, f, n, r, t, v, the backslash and both quotes. */
  const LETTERS: seq<Byte> := [97, 98, 102, 110, 114, 116, 118, 92, 34, 39]
  const MEANINGS: seq<Byte> := [7, 8, 12, 10, 13, 9, 11, 92, 34, 39]

  lemma LetterRead(z: seq<Byte>, pos: nat, del: Byte, line: nat, k: nat)
    requires k < 10 && del != 92 && Here(z, pos, [92, LETTERS[k]])
    ensures ReadBody(z, pos, del, line) == Then([MEANINGS[k]], ReadBody(z, pos + 2, del, line))
  {
    HereAt(z, pos, [92, LETTERS[k]], 0);
    HereAt(z, pos, [92, LETTERS[k]], 1);
    LetterIs(k);
    hide Simple;
  }

  lemma LetterIs(k: nat)
    requires k < 10
    ensures Simple(LETTERS[k]) == MEANINGS[k]
  {
  }

  // ----- numbers -----

  /** The digits 0 to 9, a to f or A to F. */
  function HexDigit(d: nat, upper: bool): (b: Byte)
    requires d < 16
  {
    if upper then [48, 49, 50, 51, 52, 53, 54, 55, 56, 57, 65, 66, 67, 68, 69, 70][d]
    else [48, 49, 50, 51, 52, 53, 54, 55, 56, 57, 97, 98, 99, 100, 101, 102][d]
  }

  lemma HexDigitIs(d: nat, upper: bool)
    requires d < 16
    ensures IsXDigit(HexDigit(d, upper)) && HexValue(HexDigit(d, upper)) == d
  {
  }

  /** A backslash, `x` and two hexadecimal digits. */
  lemma HexRead(z: seq<Byte>, pos: nat, del: Byte, line: nat, hi: nat, lo: nat, u: bool, v: bool)
    requires hi < 16 && lo < 16 && del != 92 && Here(z, pos, [92, 120, HexDigit(hi, u), HexDigit(lo, v)])
    ensures ReadBody(z, pos, del, line) == Then([16 * hi + lo], ReadBody(z, pos + 4, del, line))
  {
    var t := [92, 120, HexDigit(hi, u), HexDigit(lo, v)];
    HereAt(z, pos, t, 0);
    HereAt(z, pos, t, 1);
    HereAt(z, pos, t, 2);
    HereAt(z, pos, t, 3);
    HexDigitIs(hi, u);
    HexDigitIs(lo, v);
    hide HexDigit, HexValue, IsXDigit, Here;
  }

  /** The value of some decimal digits. */
  function DecimalValue(ds: seq<nat>): nat {
    if ds == [] then 0 else 10 * DecimalValue(ds[..|ds| - 1]) + ds[|ds| - 1]
  }

  function DecimalText(ds: seq<nat>): (t: seq<Byte>)
    requires forall i :: 0 <= i < |ds| ==> ds[i] < 10
    ensures |t| == |ds|
  {
    seq(|ds|, i requires 0 <= i < |ds| => 48 + ds[i])
  }

  /** A backslash and one to three decimal digits, as many as there are. */
  lemma DecimalRead(z: seq<Byte>, pos: nat, del: Byte, line: nat, ds: seq<nat>)
    requires 1 <= |ds| <= 3 && (forall i :: 0 <= i < |ds| ==> ds[i] < 10) && del != 92
    requires Here(z, pos, [92] + DecimalText(ds)) && (|ds| < 3 ==> !(48 <= Cur(z, pos + 1 + |ds|) <= 57))
    ensures ReadBody(z, pos, del, line) ==
            if DecimalValue(ds) > 255 then Bad(DecimalTooLarge)
            else Then([DecimalValue(ds)], ReadBody(z, pos + 1 + |ds|, del, line))
  {
    var t := [92] + DecimalText(ds);
    HereAt(z, pos, t, 0);
    HereAt(z, pos, t, 1);
    DigitsAre(z, pos + 1, ds);
    hide Digits, DecimalValue, Here;
  }

  lemma DigitsAre(z: seq<Byte>, pos: nat, ds: seq<nat>)
    requires 1 <= |ds| <= 3 && (forall i :: 0 <= i < |ds| ==> ds[i] < 10) && pos > 0
    requires Here(z, pos - 1, [92] + DecimalText(ds)) && (|ds| < 3 ==> !(48 <= Cur(z, pos + |ds|) <= 57))
    ensures pos + |ds| <= |z| && Digits(z, pos, 3, 0) == (DecimalValue(ds), pos + |ds|)
  {
    var t := [92] + DecimalText(ds);
    forall i | 0 <= i < |ds| ensures Cur(z, pos + i) == 48 + ds[i] { HereAt(z, pos - 1, t, i + 1); }
    hide Here, DecimalText, Digits, DecimalValue;
    DigitsFrom(z, pos, ds, 0, 3);
    assert ds[..|ds|] == ds && ds[..0] == [];
  }

  /** The loop from digit `k` on, with the value of the digits before it. */
  lemma {:induction false} DigitsFrom(z: seq<Byte>, pos: nat, ds: seq<nat>, k: nat, left: nat)
    requires k <= |ds| && pos + |ds| <= |z| && forall i :: 0 <= i < |ds| ==> ds[i] < 10 && Cur(z, pos + i) == 48 + ds[i]
    requires left + k >= |ds| && (left + k > |ds| ==> !(48 <= Cur(z, pos + |ds|) <= 57))
    ensures Digits(z, pos + k, left, DecimalValue(ds[..k])) == (DecimalValue(ds), pos + |ds|)
    ensures DecimalValue([]) == 0
    decreases |ds| - k
  {
    if k < |ds| {
      assert ds[..k + 1][..k] == ds[..k];
      DigitsFrom(z, pos, ds, k + 1, left - 1);
    } else {
      assert ds[..k] == ds;
    }
  }

  // ----- characters by number -----

  /** A number in hexadecimal digits. */
  function HexText(n: nat, upper: bool): (t: seq<Byte>)
    ensures |t| > 0
  {
    if n < 16 then [HexDigit(n, upper)] else HexText(n / 16, upper) + [HexDigit(n % 16, upper)]
  }

  function ZeroDigits(n: nat): (t: seq<Byte>)
    ensures |t| == n && forall i :: 0 <= i < n ==> t[i] == 48
  {
    seq(n, _ => 48)
  }

  /** More zeros change nothing. */
  lemma {:induction false} ZerosRead(z: seq<Byte>, pos: nat, n: nat)
    requires pos + n <= |z| && forall i :: pos <= i < pos + n ==> z[i] == 48
    ensures HexMore(z, pos, 0) == HexMore(z, pos + n, 0)
    decreases n
  {
    if n > 0 { ZerosRead(z, pos + 1, n - 1); }
  }

  /** The digits of a number, read after a zero: the number, or an error when it has more than 31 bits. */
  lemma {:induction false} HexTextRead(z: seq<Byte>, pos: nat, n: nat, upper: bool)
    requires Here(z, pos, HexText(n, upper))
    ensures HexMore(z, pos, 0) == if n >= 0x8000_0000 then (false, 0, HexMore(z, pos, 0).2) else HexMore(z, pos + |HexText(n, upper)|, n)
    decreases n
  {
    var t := HexText(n, upper);
    hide HexMore;
    HereAt(z, pos, t, |t| - 1);
    HexDigitIs(n % 16, upper);
    var before := pos + |t| - 1;
    if n >= 16 {
      Cut(z, pos, HexText(n / 16, upper), [HexDigit(n % 16, upper)]);
      HexTextRead(z, pos, n / 16, upper);
    }
    if n / 16 < 0x8000_0000 { HexStep(z, before, n / 16, n % 16); }
  }

  lemma HexStep(z: seq<Byte>, pos: nat, r: nat, d: nat)
    requires pos < |z| && r <= 0x7FFF_FFFF && IsXDigit(z[pos]) && HexValue(z[pos]) == d
    ensures HexMore(z, pos, r) == if r * 16 + d >= 0x8000_0000 then (false, 0, pos) else HexMore(z, pos + 1, r * 16 + d)
  {
  }

  /** A backslash, `u`, and in braces any zeros and the digits of a number: its UTF-8 form. */
  lemma NumberRead(z: seq<Byte>, pos: nat, del: Byte, line: nat, zeros: nat, n: nat, upper: bool)
    requires del != 92 && Here(z, pos, [92, 117, 123] + ZeroDigits(zeros) + HexText(n, upper) + [125])
    ensures ReadBody(z, pos, del, line) ==
            if n >= 0x8000_0000 then Bad(Utf8TooLarge)
            else Then(Esc(n), ReadBody(z, pos + 4 + zeros + |HexText(n, upper)|, del, line))
    ensures Scalar(n) ==> Esc(n) == Encode(n)
  {
    hide Here, HexText, HexMore, HexValue, IsXDigit, Encode, Esc, Scalar, ReadBody;
    var head, digits := [92, 117, 123], ZeroDigits(zeros) + HexText(n, upper);
    assert head + ZeroDigits(zeros) + HexText(n, upper) + [125] == head + (digits + [125]);
    Cut(z, pos, head, digits + [125]);
    Cut(z, pos + 3, digits, [125]);
    HereAt(z, pos, head, 0);
    HereAt(z, pos, head, 1);
    HereAt(z, pos, head, 2);
    HereAt(z, pos + 3 + |digits|, [125], 0);
    BracesRead(z, pos + 3, zeros, n, upper);
    BracesClosed(z, pos, del, line, pos + 3 + |digits|, n);
    if Scalar(n) { EncodersAgree(n); }
  }

  lemma BracesClosed(z: seq<Byte>, pos: nat, del: Byte, line: nat, end: nat, n: nat)
    requires del != 92 && pos + 3 < |z| && Cur(z, pos) == 92 && Cur(z, pos + 1) == 117 && Cur(z, pos + 2) == 123
    requires IsXDigit(Cur(z, pos + 3)) && HexValue(Cur(z, pos + 3)) <= 0x7FFF_FFFF && Cur(z, end) == 125
    requires var m := HexMore(z, pos + 4, HexValue(Cur(z, pos + 3))); if n >= 0x8000_0000 then !m.0 else m == (true, n, end)
    ensures ReadBody(z, pos, del, line) ==
            if n >= 0x8000_0000 then Bad(Utf8TooLarge) else Then(Esc(n), ReadBody(z, end + 1, del, line))
  {
    hide HexMore, HexValue, IsXDigit, Esc;
  }

  /** What stands between the braces. */
  lemma BracesRead(z: seq<Byte>, pos: nat, zeros: nat, n: nat, upper: bool)
    requires Here(z, pos, ZeroDigits(zeros) + HexText(n, upper))
    requires Cur(z, pos + zeros + |HexText(n, upper)|) == 125
    ensures pos < |z| && IsXDigit(Cur(z, pos)) && HexValue(Cur(z, pos)) <= 0x7FFF_FFFF
    ensures var m := HexMore(z, pos + 1, HexValue(Cur(z, pos)));
            if n >= 0x8000_0000 then !m.0 else m == (true, n, pos + zeros + |HexText(n, upper)|)
  {
    var t := HexText(n, upper);
    Cut(z, pos, ZeroDigits(zeros), t);
    forall i | pos <= i < pos + zeros ensures z[i] == 48 { HereAt(z, pos, ZeroDigits(zeros), i - pos); }
    ZerosRead(z, pos, zeros);
    HexTextRead(z, pos + zeros, n, upper);
    FirstHex(n, upper);
    HereAt(z, pos + zeros, t, 0);
    hide Here, HexText;
    HexFirst(z, pos);
    assert !IsXDigit(125);
  }

  lemma {:induction false} FirstHex(n: nat, upper: bool)
    ensures IsXDigit(HexText(n, upper)[0])
    decreases n
  {
    HexDigitIs(n % 16, upper);
    if n >= 16 { FirstHex(n / 16, upper); }
  }

  lemma HexFirst(z: seq<Byte>, pos: nat)
    requires pos < |z| && IsXDigit(z[pos])
    ensures HexMore(z, pos, 0) == HexMore(z, pos + 1, HexValue(z[pos]))
  {
  }

  // ----- spaces and lines -----

  predicate White(c: int) { 9 <= c <= 13 || c == 32 }

  /** Line feeds and carriage returns, two different ones after each other counted as one. */
  function Breaks(ws: seq<Byte>): nat
    decreases |ws|
  {
    if ws == [] then 0
    else if ws[0] != 10 && ws[0] != 13 then Breaks(ws[1..])
    else if |ws| > 1 && (ws[1] == 10 || ws[1] == 13) && ws[1] != ws[0] then 1 + Breaks(ws[2..])
    else 1 + Breaks(ws[1..])
  }

  lemma {:induction false} ZapIs(z: seq<Byte>, pos: nat, line: nat, ws: seq<Byte>)
    requires Here(z, pos, ws) && (forall i :: 0 <= i < |ws| ==> White(ws[i])) && !White(Cur(z, pos + |ws|))
    ensures Zap(z, pos, line) ==
            if Breaks(ws) > 0 && line + Breaks(ws) >= 0x7FFF_FFFF then Bad(TooManyLines) else Ok([], pos + |ws|, line + Breaks(ws))
    decreases |ws|
  {
    hide Here, Zap, Breaks, White;
    HereEnd(z, pos, ws);
    if ws != [] {
      HereAt(z, pos, ws, 0);
      if |ws| > 1 { HereAt(z, pos, ws, 1); }
      var n := BreakAt(ws);
      BreaksStep(ws);
      assert ws == ws[..n.0] + ws[n.0..];
      Cut(z, pos, ws[..n.0], ws[n.0..]);
      ZapStep(z, pos, line, ws);
      ZapIs(z, pos + n.0, line + n.1, ws[n.0..]);
    } else {
      ZapEnds(z, pos, line);
    }
  }

  lemma HereEnd(z: seq<Byte>, pos: nat, t: seq<Byte>)
    requires Here(z, pos, t)
    ensures pos + |t| <= |z|
  {
  }

  /** What the first break or blank takes, and whether it is a break. */
  function BreakAt(ws: seq<Byte>): (r: (nat, nat))
    requires ws != []
    ensures 1 <= r.0 <= |ws|
  {
    if ws[0] != 10 && ws[0] != 13 then (1, 0)
    else if |ws| > 1 && (ws[1] == 10 || ws[1] == 13) && ws[1] != ws[0] then (2, 1)
    else (1, 1)
  }

  lemma BreaksStep(ws: seq<Byte>)
    ensures ws != [] ==> Breaks(ws) == BreakAt(ws).1 + Breaks(ws[BreakAt(ws).0..])
    ensures ws == [] ==> Breaks(ws) == 0
  {
  }

  lemma ZapEnds(z: seq<Byte>, pos: nat, line: nat)
    requires pos <= |z| && !White(Cur(z, pos))
    ensures Zap(z, pos, line) == Ok([], pos, line) && Breaks([]) == 0
  {
  }

  lemma ZapStep(z: seq<Byte>, pos: nat, line: nat, ws: seq<Byte>)
    requires ws != [] && pos + |ws| <= |z| && Cur(z, pos) == ws[0] && (|ws| > 1 ==> Cur(z, pos + 1) == ws[1])
    requires White(ws[0]) && (|ws| == 1 ==> !White(Cur(z, pos + 1)))
    ensures var n := BreakAt(ws);
            Zap(z, pos, line) == if n.1 == 1 && line + 1 >= 0x7FFF_FFFF then Bad(TooManyLines) else Zap(z, pos + n.0, line + n.1)
  {
  }

  /** A backslash and `z` skip exactly the white space after them, and count its lines. */
  lemma SpacesSkipped(z: seq<Byte>, pos: nat, del: Byte, line: nat, ws: seq<Byte>)
    requires del != 92 && Here(z, pos, [92, 122] + ws)
    requires (forall i :: 0 <= i < |ws| ==> White(ws[i])) && !White(Cur(z, pos + 2 + |ws|))
    ensures ReadBody(z, pos, del, line) ==
            if Breaks(ws) > 0 && line + Breaks(ws) >= 0x7FFF_FFFF then Bad(TooManyLines)
            else ReadBody(z, pos + 2 + |ws|, del, line + Breaks(ws))
  {
    Cut(z, pos, [92, 122], ws);
    HereAt(z, pos, [92, 122], 0);
    HereAt(z, pos, [92, 122], 1);
    ZapIs(z, pos + 2, line, ws);
    hide Here, Breaks, Zap;
    assert forall r: Lexed :: Then([], r) == r by { NothingFirst(); }
  }

  lemma NothingFirst()
    ensures forall r: Lexed :: Then([], r) == r
  {
    forall r: Lexed ensures Then([], r) == r {
      if r.Ok? { assert [] + r.s == r.s; }
    }
  }

  /** A backslash before a line break, of one character or two, is a line feed. */
  lemma BreakRead(z: seq<Byte>, pos: nat, del: Byte, line: nat, nl: seq<Byte>)
    requires del != 92 && nl in [[10], [13], [10, 13], [13, 10]] && Here(z, pos, [92] + nl)
    requires |nl| == 1 ==> Cur(z, pos + 2) != 23 - nl[0]
    ensures ReadBody(z, pos, del, line) ==
            if line + 1 >= 0x7FFF_FFFF then Bad(TooManyLines) else Then([10], ReadBody(z, pos + 1 + |nl|, del, line + 1))
  {
    HereAt(z, pos, [92] + nl, 0);
    HereAt(z, pos, [92] + nl, 1);
    if |nl| == 2 { HereAt(z, pos, [92] + nl, 2); }
  }

  // ----- everything else -----

  /** Other bytes stand for themselves, up to the delimiter; a line break or the end of the text is an error. */
  lemma PlainRead(z: seq<Byte>, pos: nat, del: Byte, line: nat)
    requires pos <= |z| && del != 92
    ensures pos == |z| ==> ReadBody(z, pos, del, line) == Bad(UnfinishedAtEnd)
    ensures pos < |z| && z[pos] == del ==> ReadBody(z, pos, del, line) == Ok([], pos + 1, line)
    ensures pos < |z| && z[pos] != del && (z[pos] == 10 || z[pos] == 13) ==> ReadBody(z, pos, del, line) == Bad(Unfinished)
    ensures pos < |z| && z[pos] != del && z[pos] != 10 && z[pos] != 13 && z[pos] != 92 ==>
              ReadBody(z, pos, del, line) == Then([z[pos]], ReadBody(z, pos + 1, del, line))
  {
    hide Escape;
  }

  predicate IsHex(c: int) { 48 <= c <= 57 || 65 <= c <= 70 || 97 <= c <= 102 }

  /** What is no escape. */
  lemma WrongEscapes(z: seq<Byte>, pos: nat, del: Byte, line: nat)
    requires pos < |z| && z[pos] == 92 && del != 92
    ensures var c := Cur(z, pos + 1); var r := ReadBody(z, pos, del, line);
            && (pos + 1 == |z| ==> r == Bad(UnfinishedAtEnd))
            && (c == 120 && !(IsHex(Cur(z, pos + 2)) && IsHex(Cur(z, pos + 3))) ==> r == Bad(HexExpected))
            && (c == 117 && Cur(z, pos + 2) != 123 ==> r == Bad(MissingOpen))
            && (c == 117 && Cur(z, pos + 2) == 123 && !IsHex(Cur(z, pos + 3)) ==> r == Bad(HexExpected))
            && (pos + 1 < |z| && c !in LETTERS && c !in [10, 13, 117, 120, 122] && !(48 <= c <= 57) ==> r == Bad(InvalidEscape))
  {
    if pos + 1 == |z| { EndAfterBackslash(z, pos, del, line); }
  }

  // ----- what is written -----

  /** `%q` writes a backslash before a quote, a backslash and a line feed; control characters as their decimal number, in
      three digits when a digit follows; and every other byte as it is. */
  lemma PieceIs(c: Byte, next: Byte)
    ensures Piece(c, next) ==
            if c == 34 || c == 92 || c == 10 then [92, c]
            else if c < 32 || c == 127 then
              (if 48 <= next <= 57 then [92, 48 + c / 100, 48 + c / 10 % 10, 48 + c % 10]
               else if c < 10 then [92, 48 + c]
               else if c < 100 then [92, 48 + c / 10, 48 + c % 10]
               else [92, 48 + c / 100, 48 + c / 10 % 10, 48 + c % 10])
            else [c]
  {
  }
}
