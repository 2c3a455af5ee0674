/** UTF-8 in two places: the coder, decoder and sanitizer of adclib.cpp, with a wchar_t of at least 32 bits, and the
    encoder of lobject.c. Bits are written as arithmetic: a mask is a remainder, a shift a product or a quotient. */
module Utf8 {
  import opened Wrappers

  const UTF8BUFFSZ := 8
  const UNDERSCORE: Byte := 0x5F

  predicate Scalar(c: nat) {
    c <= 0x10FFFF && !(0xD800 <= c <= 0xDFFF)
  }

  /** The byte at `i`; strings end with a zero that is not part of them. */
  function At(str: seq<Byte>, i: nat): Byte {
    if i < |str| then str[i] else 0
  }

  // ----- decoding -----

  /** How long the sequence that starts with a byte 11xxxxxx says it is. */
  function Announced(c0: Byte): (n: nat)
    ensures 2 <= n <= 4
  {
    2 + (if c0 / 32 % 2 == 1 then 1 else 0) + (if c0 / 16 % 4 == 3 then 1 else 0)
  }

  /** The bit that has to be clear after the leading ones. */
  function CheckBit(bytes: nat): nat
    requires 2 <= bytes <= 4
  {
    if bytes == 2 then 0x20 else if bytes == 3 then 0x10 else 0x08
  }

  /** What `utf8ToWc` returns, and the character. */
  datatype Decoded = Decoded(x: int, c: nat)

  /** Continuation bytes from the `k`-th of the sequence at `i` on, with `c` read so far. */
  function Continue(str: seq<Byte>, i: nat, k: int, bytes: int, c: nat): (r: Decoded)
    requires 1 <= k <= bytes
    decreases bytes - k
  {
    if k == bytes then
      if c > 0x10FFFF || 0xD800 <= c <= 0xDFFF then Decoded(-bytes, 0xFFFD) else Decoded(bytes, c)
    else
      var ci := At(str, i + k);
      if ci / 64 != 2 then Decoded(-k, c) else Continue(str, i, k + 1, bytes, c * 64 + ci % 64)
  }

  /** `utf8ToWc` on the string from `i` on. */
  function ToWc(str: seq<Byte>, i: nat): (r: Decoded)
    requires i < |str|
  {
    var c0 := str[i];
    if c0 >= 0xC0 then
      var bytes := Announced(c0);
      if c0 / CheckBit(bytes) % 2 == 1 then Decoded(-1, 0)
      else Continue(str, i, 1, bytes, c0 % CheckBit(bytes))
    else if c0 < 0x80 then Decoded(1, c0)
    else Decoded(-1, 0)
  }

  lemma {:induction false} ContinueInside(str: seq<Byte>, i: nat, k: int, bytes: int, c: nat)
    requires 1 <= k <= bytes && i + k <= |str|
    ensures var r := Continue(str, i, k, bytes, c);
            && r.x != 0 && (if r.x < 0 then i - r.x else i + r.x) <= |str|
            && (r.x > 0 ==> r.x == bytes && Scalar(r.c))
            && (r.x < 0 ==> -r.x >= k)
    decreases bytes - k
  {
    if k < bytes && At(str, i + k) / 64 == 2 {
      ContinueInside(str, i, k + 1, bytes, c * 64 + At(str, i + k) % 64);
    }
  }

  /** The decoder makes progress, stays in the string, and accepts only scalar values. */
  lemma ToWcInside(str: seq<Byte>, i: nat)
    requires i < |str|
    ensures var r := ToWc(str, i);
            && r.x != 0 && (if r.x < 0 then i - r.x else i + r.x) <= |str| && (r.x > 0 ==> Scalar(r.c))
  {
    if str[i] >= 0xC0 {
      var bytes := Announced(str[i]);
      ContinueInside(str, i, 1, bytes, str[i] % CheckBit(bytes));
    }
  }

  predicate Follows(b: Byte) { 0x80 <= b <= 0xBF }

  predicate InUnicode(v: nat) { v < 0xD800 || 0xE000 <= v <= 0x10FFFF }

  /** What is decoded, by the ranges of the bytes: how far it is read, negative where it is refused, and the value of what
      is accepted, which may be longer than it need be. */
  lemma DecodesAs(str: seq<Byte>, i: nat)
    requires i < |str|
    ensures var c0, c1, c2, c3 := str[i], At(str, i + 1), At(str, i + 2), At(str, i + 3);
            var v2, v3, v4 := (c0 - 0xC0) * 0x40 + (c1 - 0x80), (c0 - 0xE0) * 0x1000 + (c1 - 0x80) * 0x40 + (c2 - 0x80),
                              (c0 - 0xF0) * 0x4_0000 + (c1 - 0x80) * 0x1000 + (c2 - 0x80) * 0x40 + (c3 - 0x80);
            var r := ToWc(str, i);
            if c0 < 0x80 then r == Decoded(1, c0)
            else if c0 < 0xC0 || c0 >= 0xF8 || !Follows(c1) then r.x == -1
            else if c0 < 0xE0 then r.x == 2 && r.c == v2
            else if !Follows(c2) then r.x == -2
            else if c0 < 0xF0 then v3 >= 0 && (if InUnicode(v3) then r.x == 3 && r.c == v3 else r.x == -3)
            else if !Follows(c3) then r.x == -3
            else v4 >= 0 && if InUnicode(v4) then r.x == 4 && r.c == v4 else r.x == -4
  {
    var c0, c1, c2, c3 := str[i], At(str, i + 1), At(str, i + 2), At(str, i + 3);
    if 0xC0 <= c0 < 0xE0 {
      assert Announced(c0) == 2;
      assert c0 < 0xE0 ==> c0 / 0x20 % 2 == 0 && c0 % 0x20 == c0 - 0xC0;
    } else if 0xE0 <= c0 < 0xF0 {
      assert Announced(c0) == 3;
      assert c0 / 0x10 % 2 == 0 && c0 % 0x10 == c0 - 0xE0;
    } else if 0xF0 <= c0 {
      assert Announced(c0) == 4;
    }
    hide Announced;
    if 0xC0 <= c0 < 0xF8 { Continued(str, i, c0, c1, c2, c3, Announced(c0)); }
  }

  lemma Continued(str: seq<Byte>, i: nat, c0: Byte, c1: Byte, c2: Byte, c3: Byte, bytes: nat)
    requires 2 <= bytes <= 4 && c1 == At(str, i + 1) && c2 == At(str, i + 2) && c3 == At(str, i + 3)
    ensures forall c: nat :: c < 0x40 ==>
              var r := Continue(str, i, 1, bytes, c);
              if !Follows(c1) then r.x == -1
              else if bytes == 2 then r == Continue(str, i, 2, 2, c * 0x40 + (c1 - 0x80))
              else if !Follows(c2) then r.x == -2
              else if bytes == 3 then r == Continue(str, i, 3, 3, c * 0x1000 + (c1 - 0x80) * 0x40 + (c2 - 0x80))
              else if !Follows(c3) then r.x == -3
              else r == Continue(str, i, 4, 4, c * 0x4_0000 + (c1 - 0x80) * 0x1000 + (c2 - 0x80) * 0x40 + (c3 - 0x80))
  {
  }

  /** What is no scalar value is encoded as U+FFFD. */
  lemma Replaced(c: nat)
    requires !InUnicode(c)
    ensures Encode(c) == Encode(0xFFFD)
  {
  }

  function Length(x: int): nat {
    if x < 0 then -x else x
  }

  // ----- encoding -----

  /** `wcToUtf8`, with the replacement character for what is not a scalar value. */
  function Encode(c: nat): (r: seq<Byte>)
    ensures 1 <= |r| <= 4
  {
    if !Scalar(c) then [0xEF, 0xBF, 0xBD]
    else if c >= 0x10000 then [0xF0 + c / 0x40000, 0x80 + c / 0x1000 % 64, 0x80 + c / 64 % 64, 0x80 + c % 64]
    else if c >= 0x800 then [0xE0 + c / 0x1000, 0x80 + c / 64 % 64, 0x80 + c % 64]
    else if c >= 0x80 then [0xC0 + c / 64, 0x80 + c % 64]
    else [c]
  }

  /** `s` stands at `i`. */
  ghost predicate Stands(str: seq<Byte>, i: nat, s: seq<Byte>) {
    i + |s| <= |str| && forall k :: 0 <= k < |s| ==> str[i + k] == s[k]
  }

  /** Decoding undoes encoding, wherever the sequence stands. */
  lemma DecodeEncoded(str: seq<Byte>, i: nat, c: nat)
    requires Scalar(c) && Stands(str, i, Encode(c))
    ensures i < |str| && ToWc(str, i) == Decoded(|Encode(c)|, c)
  {
    var e := Encode(c);
    assert str[i] == e[0];
    if c >= 0x10000 {
      assert str[i + 1] == e[1] && str[i + 2] == e[2] && str[i + 3] == e[3];
      FourBytes(c);
      FourUp(str, i, c);
    } else if c >= 0x800 {
      assert str[i + 1] == e[1] && str[i + 2] == e[2];
      ThreeBytes(c);
      ThreeUp(str, i, c);
    } else if c >= 0x80 {
      assert str[i + 1] == e[1];
      TwoUp(str, i, c);
    }
  }

  lemma TwoUp(str: seq<Byte>, i: nat, c: nat)
    requires 0x80 <= c < 0x800 && i + 2 <= |str| && str[i] == 0xC0 + c / 64 && str[i + 1] == 0x80 + c % 64
    ensures ToWc(str, i) == Decoded(2, c)
  {
    assert Announced(str[i]) == 2 && str[i] / 0x20 % 2 == 0 && str[i] % 0x20 == c / 64;
    assert Continue(str, i, 2, 2, c) == Decoded(2, c);
  }

  lemma ThreeUp(str: seq<Byte>, i: nat, c: nat)
    requires 0x800 <= c < 0x10000 && Scalar(c) && i + 3 <= |str| && str[i] == 0xE0 + c / 0x1000
    requires str[i + 1] == 0x80 + c / 64 % 64 && str[i + 2] == 0x80 + c % 64
    requires (c / 0x1000 * 64 + c / 64 % 64) * 64 + c % 64 == c
    ensures ToWc(str, i) == Decoded(3, c)
  {
    assert Announced(str[i]) == 3 && str[i] / 0x10 % 2 == 0 && str[i] % 0x10 == c / 0x1000;
    var c1 := c / 0x1000 * 64 + c / 64 % 64;
    assert Continue(str, i, 3, 3, c) == Decoded(3, c);
    assert Continue(str, i, 2, 3, c1) == Decoded(3, c);
    assert Continue(str, i, 1, 3, c / 0x1000) == Decoded(3, c);
  }

  lemma FourUp(str: seq<Byte>, i: nat, c: nat)
    requires 0x10000 <= c <= 0x10FFFF && i + 4 <= |str| && str[i] == 0xF0 + c / 0x40000
    requires str[i + 1] == 0x80 + c / 0x1000 % 64 && str[i + 2] == 0x80 + c / 64 % 64 && str[i + 3] == 0x80 + c % 64
    requires ((c / 0x40000 * 64 + c / 0x1000 % 64) * 64 + c / 64 % 64) * 64 + c % 64 == c
    ensures ToWc(str, i) == Decoded(4, c)
  {
    assert Announced(str[i]) == 4 && str[i] / 0x08 % 2 == 0 && str[i] % 0x08 == c / 0x40000;
    var c1 := c / 0x40000 * 64 + c / 0x1000 % 64;
    var c2 := c1 * 64 + c / 64 % 64;
    assert Continue(str, i, 4, 4, c) == Decoded(4, c);
    assert Continue(str, i, 3, 4, c2) == Decoded(4, c);
    assert Continue(str, i, 2, 4, c1) == Decoded(4, c);
    assert Continue(str, i, 1, 4, c / 0x40000) == Decoded(4, c);
  }

  lemma ThreeBytes(c: nat)
    requires 0x800 <= c < 0x10000
    ensures (c / 0x1000 * 64 + c / 64 % 64) * 64 + c % 64 == c
  {
    assert c / 64 / 64 == c / 0x1000;
  }

  lemma FourBytes(c: nat)
    requires 0x10000 <= c <= 0x10FFFF
    ensures ((c / 0x40000 * 64 + c / 0x1000 % 64) * 64 + c / 64 % 64) * 64 + c % 64 == c
  {
    assert c / 64 / 64 == c / 0x1000;
    assert c / 0x1000 / 64 == c / 0x40000;
  }

  // ----- what is accepted -----

  /** The sequence at `i` is accepted, and no shorter one would do. */
  ghost predicate Shortest(str: seq<Byte>, i: nat)
    requires i < |str|
  {
    var r := ToWc(str, i);
    r.x > 0 && |Encode(r.c)| == r.x
  }

  /** An accepted sequence that is shortest is the encoding of its character. */
  lemma ShortestIsEncoded(str: seq<Byte>, i: nat)
    requires i < |str| && Shortest(str, i)
    ensures Scalar(ToWc(str, i).c) && Stands(str, i, Encode(ToWc(str, i).c))
  {
    ToWcInside(str, i);
    var r := ToWc(str, i);
    if r.x > 1 {
      Pieces(str, i);
    }
  }

  /** The bytes of an accepted sequence of more than one byte. */
  lemma Pieces(str: seq<Byte>, i: nat)
    requires i < |str| && ToWc(str, i).x > 1
    ensures var x := ToWc(str, i).x; 2 <= x <= 4 && i + x <= |str| && Bits(str, i, x, ToWc(str, i).c)
  {
    ToWcInside(str, i);
    match Announced(str[i])
    case 2 => Pieces2(str, i);
    case 3 => Pieces3(str, i);
    case _ => Pieces4(str, i);
  }

  ghost predicate Bits(str: seq<Byte>, i: nat, x: int, c: nat)
    requires i + x <= |str| && 2 <= x <= 4
  {
    if x == 2 then str[i] == 0xC0 + c / 64 && str[i + 1] == 0x80 + c % 64
    else if x == 3 then str[i] == 0xE0 + c / 0x1000 && str[i + 1] == 0x80 + c / 64 % 64 && str[i + 2] == 0x80 + c % 64
    else str[i] == 0xF0 + c / 0x40000 && str[i + 1] == 0x80 + c / 0x1000 % 64
         && str[i + 2] == 0x80 + c / 64 % 64 && str[i + 3] == 0x80 + c % 64
  }

  lemma Pieces2(str: seq<Byte>, i: nat)
    requires i < |str| && str[i] >= 0xC0 && Announced(str[i]) == 2 && ToWc(str, i).x > 1 && i + ToWc(str, i).x <= |str|
    ensures ToWc(str, i).x == 2 && Bits(str, i, 2, ToWc(str, i).c)
  {
    var c0, d1 := str[i] % 0x20, At(str, i + 1) % 64;
    assert str[i] == 0xC0 + c0;
    assert Continue(str, i, 1, 2, c0) == Continue(str, i, 2, 2, c0 * 64 + d1) == Decoded(2, c0 * 64 + d1);
    Split2(c0, d1);
  }

  lemma Pieces3(str: seq<Byte>, i: nat)
    requires i < |str| && str[i] >= 0xC0 && Announced(str[i]) == 3 && ToWc(str, i).x > 1 && i + ToWc(str, i).x <= |str|
    ensures ToWc(str, i).x == 3 && Bits(str, i, 3, ToWc(str, i).c)
  {
    var c0, d1, d2 := str[i] % 0x10, At(str, i + 1) % 64, At(str, i + 2) % 64;
    assert str[i] == 0xE0 + c0;
    var c1 := c0 * 64 + d1;
    assert Continue(str, i, 1, 3, c0) == Continue(str, i, 2, 3, c1);
    assert Continue(str, i, 2, 3, c1) == Continue(str, i, 3, 3, c1 * 64 + d2) == Decoded(3, c1 * 64 + d2);
    Split3(c0, d1, d2);
  }

  lemma Pieces4(str: seq<Byte>, i: nat)
    requires i < |str| && str[i] >= 0xC0 && Announced(str[i]) == 4 && ToWc(str, i).x > 1 && i + ToWc(str, i).x <= |str|
    ensures ToWc(str, i).x == 4 && Bits(str, i, 4, ToWc(str, i).c)
  {
    var c0, d1, d2, d3 := str[i] % 0x08, At(str, i + 1) % 64, At(str, i + 2) % 64, At(str, i + 3) % 64;
    assert str[i] == 0xF0 + c0;
    var c1 := c0 * 64 + d1;
    var c2 := c1 * 64 + d2;
    assert Continue(str, i, 1, 4, c0) == Continue(str, i, 2, 4, c1);
    assert Continue(str, i, 2, 4, c1) == Continue(str, i, 3, 4, c2);
    assert Continue(str, i, 3, 4, c2) == Continue(str, i, 4, 4, c2 * 64 + d3) == Decoded(4, c2 * 64 + d3);
    Split4(c0, d1, d2, d3);
  }

  lemma Split2(a: nat, b: nat)
    requires b < 64
    ensures (a * 64 + b) / 64 == a && (a * 64 + b) % 64 == b
  {
  }

  lemma Split3(a: nat, b: nat, c: nat)
    requires b < 64 && c < 64
    ensures var v := (a * 64 + b) * 64 + c; v / 0x1000 == a && v / 64 % 64 == b && v % 64 == c
  {
  }

  lemma Split4(a: nat, b: nat, c: nat, d: nat)
    requires b < 64 && c < 64 && d < 64
    ensures var v := ((a * 64 + b) * 64 + c) * 64 + d;
            v / 0x40000 == a && v / 0x1000 % 64 == b && v / 64 % 64 == c && v % 64 == d
  {
    var v := ((a * 64 + b) * 64 + c) * 64 + d;
    assert v / 64 == (a * 64 + b) * 64 + c;
    assert v / 0x1000 == a * 64 + b;
  }
}
