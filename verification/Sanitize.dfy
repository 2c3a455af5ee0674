/** `sanitizeUtf8` and `validateUtf8` of adclib.cpp, and the encoder of lobject.c against that of adclib.cpp. */
module Sanitize {
  import opened Wrappers
  import opened Utf8

  /** `insert` beyond the end of the target throws, and the function that calls it must not throw. */
  datatype Outcome = Done(s: seq<Byte>) | Terminated

  function Underscores(n: nat): (r: seq<Byte>)
    ensures |r| == n && forall k :: 0 <= k < n ==> r[k] == 95
  {
    seq(n, _ => UNDERSCORE)
  }

  /** `sanitizeUtf8` from `i` on, with `tgt` written so far. */
  function SanitizeFrom(str: seq<Byte>, i: nat, tgt: seq<Byte>): Outcome
    requires i <= |str|
    decreases |str| - i
  {
    if i == |str| then Done(tgt)
    else
      ToWcInside(str, i);
      var r := ToWc(str, i);
      if r.x < 0 then
        if i > |tgt| then Terminated
        else SanitizeFrom(str, i - r.x, tgt[..i] + Underscores(-r.x) + tgt[i..])
      else SanitizeFrom(str, i + r.x, tgt + Encode(r.c))
  }

  /** `validateUtf8` from `i` on. */
  predicate ValidFrom(str: seq<Byte>, i: nat)
    requires i <= |str|
    decreases |str| - i
  {
    i == |str| || (ToWcInside(str, i); ToWc(str, i).x > 0 && ValidFrom(str, i + ToWc(str, i).x))
  }

  /** Every sequence that the decoder accepts on its way from `i` on is in its shortest form. */
  predicate ShortFrom(str: seq<Byte>, i: nat)
    requires i <= |str|
    decreases |str| - i
  {
    i == |str|
    || (ToWcInside(str, i);
        var r := ToWc(str, i);
        (r.x > 0 ==> |Encode(r.c)| == r.x) && ShortFrom(str, i + Length(r.x)))
  }

  /** What sanitizing should come to: accepted sequences where they are, an underscore for every other byte. */
  function CleanFrom(str: seq<Byte>, i: nat): (s: seq<Byte>)
    requires i <= |str|
    ensures |s| == |str| - i
    decreases |str| - i
  {
    if i == |str| then []
    else
      ToWcInside(str, i);
      var x := ToWc(str, i).x;
      (if x < 0 then Underscores(-x) else str[i..i + x]) + CleanFrom(str, i + Length(x))
  }

  /** An accepted sequence is never shorter than the encoding of its character. */
  lemma NeverShorter(str: seq<Byte>, i: nat)
    requires i < |str| && ToWc(str, i).x > 0
    ensures |Encode(ToWc(str, i).c)| <= ToWc(str, i).x
  {
    if ToWc(str, i).x > 1 {
      Pieces(str, i);
    }
  }

  // ----- when every accepted sequence is shortest -----

  lemma SanitizeStep(str: seq<Byte>, i: nat, tgt: seq<Byte>) returns (piece: seq<Byte>)
    requires i < |str| && |tgt| == i && ShortFrom(str, i)
    ensures 0 < |piece| && i + |piece| <= |str| && ShortFrom(str, i + |piece|)
    ensures SanitizeFrom(str, i, tgt) == SanitizeFrom(str, i + |piece|, tgt + piece)
    ensures CleanFrom(str, i) == piece + CleanFrom(str, i + |piece|)
  {
    ToWcInside(str, i);
    var r := ToWc(str, i);
    hide ToWc, Encode;
    if r.x < 0 {
      piece := Underscores(-r.x);
      assert tgt[..i] + piece + tgt[i..] == tgt + piece;
    } else {
      EncodedSlice(str, i);
      piece := str[i..i + r.x];
    }
  }

  lemma {:induction false} SanitizesTo(str: seq<Byte>, i: nat, tgt: seq<Byte>)
    requires i <= |str| && |tgt| == i && ShortFrom(str, i)
    ensures SanitizeFrom(str, i, tgt) == Done(tgt + CleanFrom(str, i))
    decreases |str| - i, 1
  {
    hide ToWc, Encode;
    if i == |str| {
      assert tgt + [] == tgt;
    } else {
      SanitizesOn(str, i, tgt);
    }
  }

  lemma {:induction false} SanitizesOn(str: seq<Byte>, i: nat, tgt: seq<Byte>)
    requires i < |str| && |tgt| == i && ShortFrom(str, i)
    ensures SanitizeFrom(str, i, tgt) == Done(tgt + CleanFrom(str, i))
    decreases |str| - i, 0
  {
    hide ToWc, Encode, SanitizeFrom, CleanFrom, ShortFrom;
    var piece := SanitizeStep(str, i, tgt);
    SanitizesTo(str, i + |piece|, tgt + piece);
    assert tgt + (piece + CleanFrom(str, i + |piece|)) == tgt + piece + CleanFrom(str, i + |piece|);
  }

  lemma EncodedSlice(str: seq<Byte>, i: nat)
    requires i < |str| && Shortest(str, i)
    ensures var r := ToWc(str, i); i + r.x <= |str| && Encode(r.c) == str[i..i + r.x]
  {
    ShortestIsEncoded(str, i);
    ToWcInside(str, i);
  }

  // ----- when one is not -----

  /** Once the target is behind, the result is short or the function is terminated. */
  lemma {:induction false} Behind(str: seq<Byte>, i: nat, tgt: seq<Byte>)
    requires i <= |str| && |tgt| < i
    ensures SanitizeFrom(str, i, tgt).Done? ==> |SanitizeFrom(str, i, tgt).s| < |str|
    decreases |str| - i
  {
    hide ToWc, Encode;
    if i < |str| {
      ToWcInside(str, i);
      var r := ToWc(str, i);
      if r.x > 0 {
        NeverShorter(str, i);
        Behind(str, i + r.x, tgt + Encode(r.c));
      }
    }
  }

  lemma {:induction false} FallsBehind(str: seq<Byte>, i: nat, tgt: seq<Byte>)
    requires i <= |str| && |tgt| == i && !ShortFrom(str, i)
    ensures SanitizeFrom(str, i, tgt).Done? ==> |SanitizeFrom(str, i, tgt).s| < |str|
    decreases |str| - i
  {
    hide ToWc, Encode;
    ToWcInside(str, i);
    var r := ToWc(str, i);
    if r.x < 0 {
      FallsBehind(str, i - r.x, tgt[..i] + Underscores(-r.x) + tgt[i..]);
    } else {
      NeverShorter(str, i);
      if |Encode(r.c)| == r.x {
        FallsBehind(str, i + r.x, tgt + Encode(r.c));
      } else {
        Behind(str, i + r.x, tgt + Encode(r.c));
      }
    }
  }

  /** Sanitizing keeps the length, and does not terminate the program, exactly when every accepted sequence is in its
      shortest form; and then it keeps every accepted sequence where it is. */
  lemma KeepsLength(str: seq<Byte>)
    ensures ShortFrom(str, 0) <==> (SanitizeFrom(str, 0, []).Done? && |SanitizeFrom(str, 0, []).s| == |str|)
    ensures ShortFrom(str, 0) ==> SanitizeFrom(str, 0, []) == Done(CleanFrom(str, 0))
  {
    if ShortFrom(str, 0) {
      SanitizesTo(str, 0, []);
      assert [] + CleanFrom(str, 0) == CleanFrom(str, 0);
    } else {
      FallsBehind(str, 0, []);
    }
  }

  // ----- when the program is terminated -----

  /** The decoder accepts an overlong sequence on its way from `i` on, and rejects a byte somewhere after it. */
  predicate OverlongThenBad(str: seq<Byte>, i: nat)
    requires i <= |str|
    decreases |str| - i
  {
    i < |str|
    && (ToWcInside(str, i);
        var r := ToWc(str, i);
        (r.x > 0 && |Encode(r.c)| < r.x && !ValidFrom(str, i + r.x)) || OverlongThenBad(str, i + Length(r.x)))
  }

  /** Once the target is behind, the first rejected byte throws. */
  lemma {:induction false} BehindThrows(str: seq<Byte>, i: nat, tgt: seq<Byte>)
    requires i <= |str| && |tgt| < i
    ensures SanitizeFrom(str, i, tgt) == Terminated <==> !ValidFrom(str, i)
    decreases |str| - i
  {
    hide ToWc, Encode;
    if i < |str| {
      ToWcInside(str, i);
      var r := ToWc(str, i);
      if r.x > 0 {
        NeverShorter(str, i);
        BehindThrows(str, i + r.x, tgt + Encode(r.c));
      }
    }
  }

  lemma {:induction false} ValidHasNoBad(str: seq<Byte>, i: nat)
    requires i <= |str| && ValidFrom(str, i)
    ensures !OverlongThenBad(str, i)
    decreases |str| - i
  {
    hide ToWc, Encode;
    if i < |str| {
      ToWcInside(str, i);
      ValidHasNoBad(str, i + ToWc(str, i).x);
    }
  }

  /** While the target keeps up, the program is terminated exactly when an overlong sequence is still to come and a
      rejected byte after it. */
  lemma {:induction false} TerminatesFrom(str: seq<Byte>, i: nat, tgt: seq<Byte>)
    requires i <= |str| && |tgt| == i
    ensures SanitizeFrom(str, i, tgt) == Terminated <==> OverlongThenBad(str, i)
    decreases |str| - i
  {
    hide ToWc, Encode;
    if i < |str| {
      ToWcInside(str, i);
      var r := ToWc(str, i);
      if r.x < 0 {
        TerminatesFrom(str, i - r.x, tgt[..i] + Underscores(-r.x) + tgt[i..]);
      } else {
        NeverShorter(str, i);
        if |Encode(r.c)| == r.x {
          TerminatesFrom(str, i + r.x, tgt + Encode(r.c));
        } else {
          BehindThrows(str, i + r.x, tgt + Encode(r.c));
          if ValidFrom(str, i + r.x) { ValidHasNoBad(str, i + r.x); }
        }
      }
    }
  }

  /** The function that must not throw throws exactly when an overlong sequence is accepted and a later byte rejected. */
  lemma TerminatesExactly(str: seq<Byte>)
    ensures SanitizeFrom(str, 0, []) == Terminated <==> OverlongThenBad(str, 0)
  {
    TerminatesFrom(str, 0, []);
  }

  /** An overlong NUL followed by a byte that cannot stand alone. */
  lemma OverlongTerminates()
    ensures SanitizeFrom([0xC0, 0x80, 0xFF], 0, []) == Terminated
  {
    var str: seq<Byte> := [0xC0, 0x80, 0xFF];
    assert Continue(str, 0, 2, 2, 0) == Decoded(2, 0);
    assert ToWc(str, 0) == Decoded(2, 0);
    assert ToWc(str, 2) == Decoded(-1, 0);
    TerminatesExactly(str);
    hide SanitizeFrom;
    ToWcInside(str, 0);
    ToWcInside(str, 2);
  }

  // ----- the result is valid -----

  /** A decoder that stays inside `t` does not see what comes after it. */
  lemma {:induction false} ContinueMore(t: seq<Byte>, u: seq<Byte>, i: nat, k: int, bytes: int, c: nat)
    requires 1 <= k <= bytes && Continue(t, i, k, bytes, c).x > 0 && i + k <= |t|
    ensures Continue(t + u, i, k, bytes, c) == Continue(t, i, k, bytes, c)
    decreases bytes - k
  {
    if k < bytes {
      assert i + k < |t|;
      ContinueMore(t, u, i, k + 1, bytes, c * 64 + At(t, i + k) % 64);
    }
  }

  lemma ToWcMore(t: seq<Byte>, u: seq<Byte>, i: nat)
    requires i < |t| && ToWc(t, i).x > 0
    ensures ToWc(t + u, i) == ToWc(t, i)
  {
    if t[i] >= 0xC0 {
      ContinueMore(t, u, i, 1, Announced(t[i]), t[i] % CheckBit(Announced(t[i])));
    }
  }

  ghost predicate Sound(t: seq<Byte>, i: nat)
    requires i <= |t|
  {
    ValidFrom(t, i) && ShortFrom(t, i)
  }

  /** A character added to a sound string. */
  lemma {:induction false} SoundMore(t: seq<Byte>, c: nat, i: nat)
    requires i <= |t| && Sound(t, i) && Scalar(c)
    ensures Sound(t + Encode(c), i)
    decreases |t| - i
  {
    var u := Encode(c);
    hide ToWc, Encode;
    if i == |t| {
      assert Stands(t + u, i, u);
      DecodeEncoded(t + u, i, c);
      assert ValidFrom(t + u, |t + u|) && ShortFrom(t + u, |t + u|);
      ToWcInside(t + u, i);
    } else {
      ToWcInside(t, i);
      ToWcMore(t, u, i);
      SoundMore(t, c, i + ToWc(t, i).x);
      ToWcInside(t + u, i);
    }
  }

  lemma {:induction false} SoundUnderscores(t: seq<Byte>, n: nat)
    requires Sound(t, 0)
    ensures Sound(t + Underscores(n), 0)
    decreases n
  {
    if n == 0 {
      assert t + Underscores(0) == t;
    } else {
      SoundUnderscores(t, n - 1);
      SoundMore(t + Underscores(n - 1), UNDERSCORE, 0);
      assert Encode(UNDERSCORE) == [UNDERSCORE];
      assert t + Underscores(n) == t + Underscores(n - 1) + [UNDERSCORE];
    }
  }

  /** Whatever is sanitized without termination is valid, overlong sequences or not. */
  lemma {:induction false} ResultSound(str: seq<Byte>, i: nat, tgt: seq<Byte>)
    requires i <= |str| && |tgt| <= i && Sound(tgt, 0) && SanitizeFrom(str, i, tgt).Done?
    ensures Sound(SanitizeFrom(str, i, tgt).s, 0)
    decreases |str| - i
  {
    hide ToWc, Encode, Sound;
    if i < |str| {
      ToWcInside(str, i);
      var r := ToWc(str, i);
      if r.x < 0 {
        assert tgt[..i] + Underscores(-r.x) + tgt[i..] == tgt + Underscores(-r.x);
        SoundUnderscores(tgt, -r.x);
        ResultSound(str, i - r.x, tgt + Underscores(-r.x));
      } else {
        NeverShorter(str, i);
        SoundMore(tgt, r.c, 0);
        ResultSound(str, i + r.x, tgt + Encode(r.c));
      }
    }
  }

  lemma {:induction false} SoundIsClean(str: seq<Byte>, i: nat)
    requires i <= |str| && Sound(str, i)
    ensures CleanFrom(str, i) == str[i..]
    decreases |str| - i
  {
    hide ToWc, Encode;
    if i < |str| {
      ToWcInside(str, i);
      var x := ToWc(str, i).x;
      SoundIsClean(str, i + x);
      assert str[i..] == str[i..i + x] + str[i + x..];
    }
  }

  /** The result of sanitizing is valid, and sanitizing it again changes nothing. */
  lemma SanitizedIsValid(str: seq<Byte>, result: seq<Byte>)
    requires SanitizeFrom(str, 0, []) == Done(result)
    ensures ValidFrom(result, 0) && SanitizeFrom(result, 0, []) == Done(result)
  {
    assert Sound([], 0);
    ResultSound(str, 0, []);
    KeepsLength(result);
    SoundIsClean(result, 0);
  }

  /** A valid string whose sequences are shortest is left as it is. */
  lemma ValidUnchanged(str: seq<Byte>)
    requires ValidFrom(str, 0) && ShortFrom(str, 0)
    ensures SanitizeFrom(str, 0, []) == Done(str)
  {
    KeepsLength(str);
    SoundIsClean(str, 0);
  }

  // ----- the code -----

  /** `utf8ToWc` */
  method Utf8ToWc(str: seq<Byte>, at: nat) returns (x: int, c: nat)
    requires at < |str|
    ensures Decoded(x, c) == ToWc(str, at)
  {
    var c0 := str[at];
    var bytes := 2 + (if c0 / 32 % 2 == 1 then 1 else 0) + (if c0 / 16 % 4 == 3 then 1 else 0);
    c := 0;
    if c0 >= 0xC0 {
      var checkBit := CheckBit(bytes);
      if c0 / checkBit % 2 == 1 {
        return -1, 0;
      }
      c := c0 % checkBit;
      var i := 1;
      while i < bytes
        invariant 1 <= i <= bytes && Continue(str, at, i, bytes, c) == ToWc(str, at)
      {
        var ci := At(str, at + i);
        if ci / 64 != 2 {
          return -i, c;
        }
        c := c * 64 + ci % 64;
        i := i + 1;
      }
      if c > 0x10FFFF || 0xD800 <= c <= 0xDFFF {
        return -bytes, 0xFFFD;
      }
      return bytes, c;
    } else if c0 < 0x80 {
      return 1, c0;
    } else {
      return -1, 0;
    }
  }

  /** `sanitizeUtf8` */
  method SanitizeUtf8(str: seq<Byte>) returns (r: Outcome)
    ensures r == SanitizeFrom(str, 0, [])
  {
    var tgt: seq<Byte> := [];
    var i: nat := 0;
    hide ToWc, Encode;
    while i < |str|
      invariant i <= |str| && SanitizeFrom(str, i, tgt) == SanitizeFrom(str, 0, [])
      decreases |str| - i
    {
      var x, c := Utf8ToWc(str, i);
      ToWcInside(str, i);
      if x < 0 {
        if i > |tgt| {
          return Terminated;
        }
        tgt := tgt[..i] + Underscores(-x) + tgt[i..];
      } else {
        tgt := tgt + Encode(c);
      }
      i := i + Length(x);
    }
    r := Done(tgt);
  }

  /** `validateUtf8` */
  method ValidateUtf8(str: seq<Byte>) returns (r: bool)
    ensures r == ValidFrom(str, 0)
  {
    var i: nat := 0;
    hide ToWc;
    while i < |str|
      invariant i <= |str| && ValidFrom(str, i) == ValidFrom(str, 0)
      decreases |str| - i
    {
      var j, dummy := Utf8ToWc(str, i);
      ToWcInside(str, i);
      if j < 0 {
        return false;
      }
      i := i + j;
    }
    r := true;
  }

  // ----- luaO_utf8esc -----

  /** The bytes of the loop of `luaO_utf8esc`, before those already written: `mfb` is the most that fits in a first byte. */
  function EscFrom(x: nat, mfb: nat, tail: seq<Byte>): seq<Byte>
    decreases x
  {
    if x > mfb && x > 0 then EscFrom(x / 64, mfb / 2, [0x80 + x % 64] + tail)
    else [(254 - 2 * (mfb % 128) + x) % 256] + tail
  }

  /** `luaO_utf8esc` */
  function Esc(x: nat): seq<Byte> {
    if x < 0x80 then [x] else EscFrom(x / 64, 0x1F, [0x80 + x % 64])
  }

  /** The two encoders agree on every scalar value. */
  lemma EncodersAgree(x: nat)
    requires Scalar(x)
    ensures Esc(x) == Encode(x)
  {
    if x >= 0x80 {
      var t1: seq<Byte> := [0x80 + x % 64];
      if x / 64 > 0x1F {
        var t2: seq<Byte> := [0x80 + x / 64 % 64] + t1;
        assert x / 64 / 64 == x / 0x1000;
        assert EscFrom(x / 64, 0x1F, t1) == EscFrom(x / 0x1000, 0xF, t2);
        if x / 0x1000 > 0xF {
          var t3: seq<Byte> := [0x80 + x / 0x1000 % 64] + t2;
          assert x / 0x1000 / 64 == x / 0x40000;
          assert EscFrom(x / 0x1000, 0xF, t2) == EscFrom(x / 0x40000, 0x7, t3);
        }
      }
    }
  }

  /** After `k` continuation bytes, what fits in the first byte and what can be left of the character. */
  function First(k: nat): nat {
    if k == 0 then 0x3F else if k == 1 then 0x1F else if k == 2 then 0xF else if k == 3 then 7 else if k == 4 then 3 else 1
  }

  function Left(k: nat): nat {
    if k == 0 then 0x8000_0000 else if k == 1 then 0x200_0000 else if k == 2 then 0x8_0000
    else if k == 3 then 0x2000 else if k == 4 then 0x80 else 2
  }

  lemma EscStep(x: nat, mfb: nat, tail: seq<Byte>)
    ensures x > mfb ==> EscFrom(x, mfb, tail) == EscFrom(x / 64, mfb / 2, [0x80 + x % 64] + tail)
    ensures x <= mfb < 128 ==> EscFrom(x, mfb, tail) == [(254 - 2 * mfb + x) % 256] + tail
  {
  }

  lemma CapStep(k: nat, x: nat)
    requires 1 <= k <= 5 && x < Left(k) && x > First(k)
    ensures k < 5 && x / 64 < Left(k + 1) && First(k) / 2 == First(k + 1)
  {
  }

  /** One byte in front of those already there. */
  method PutBefore(buff: array<Byte>, at: nat, b: Byte)
    requires at < buff.Length
    modifies buff
    ensures buff[at..] == [b] + old(buff[at + 1..])
  {
    buff[at] := b;
    assert buff[at + 1..] == old(buff[at + 1..]);
  }

  /** `luaO_utf8esc`: the buffer is filled backwards, and never with more than six bytes. */
  method Utf8Esc(buff: array<Byte>, x0: nat) returns (n: nat)
    requires buff.Length == UTF8BUFFSZ && x0 <= 0x7FFF_FFFF
    modifies buff
    ensures 1 <= n <= 6 && buff[UTF8BUFFSZ - n..] == Esc(x0)
  {
    n := 1;
    if x0 < 0x80 {
      buff[UTF8BUFFSZ - 1] := x0;
      return;
    }
    PutBefore(buff, UTF8BUFFSZ - 1, 0x80 + x0 % 64);
    n := 2;
    var x: nat, mfb: nat := x0 / 64, 0x1F;
    ghost var k: nat := 1;
    ghost var tail: seq<Byte> := [0x80 + x0 % 64];
    assert buff[UTF8BUFFSZ - 1..] == tail;
    assert Esc(x0) == EscFrom(x, mfb, tail) && mfb == First(1) && x < Left(1);
    hide EscFrom, Esc, Left;
    while x > mfb
      invariant 1 <= k <= 5 && n == k + 1 && mfb == First(k) && x < Left(k)
      invariant buff[UTF8BUFFSZ - k..] == tail && EscFrom(x, mfb, tail) == Esc(x0)
      decreases 5 - k
    {
      EscStep(x, mfb, tail);
      CapStep(k, x);
      PutBefore(buff, UTF8BUFFSZ - n, 0x80 + x % 64);
      tail := [0x80 + x % 64] + tail;
      n := n + 1;
      x := x / 64;
      mfb := mfb / 2;
      k := k + 1;
    }
    EscStep(x, mfb, tail);
    PutBefore(buff, UTF8BUFFSZ - n, (254 - 2 * mfb + x) % 256);
  }
}
