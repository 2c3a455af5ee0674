/** `string.pack` and `string.unpack` without floats: the format language of lstrlib.c and what it makes of bytes. The
    sizes are those of a machine with 16-bit short, 32-bit int and 64-bit long, size_t and lua_Integer. */
module PackFormat {
  import opened Wrappers

  const MAXINTSIZE := 16
  const SZINT := 8
  const INT_MAX := 0x7FFF_FFFF
  const NATIVE_LITTLE := true
  const NATIVE_ALIGN := 8

  datatype Value = Int(n: int) | Str(s: seq<Byte>)

  datatype KOption = Kint | Kuint | Kchar | Kstring | Kzstr | Kpadding | Kpaddalign | Knop

  datatype Error = SizeLimits | MissingSize | InvalidOption | FloatOption | InvalidNext | NotPowerOf2
                 | BadArgument | IntegerOverflow | UnsignedOverflow | StringTooLong | LengthDoesNotFit | ContainsZeros
                 | DataTooShort | Unfinished | DoesNotFit | VariableLength | TooLarge

  datatype Result<+T> = Ok(value: T) | Bad(error: Error)

  datatype Header = Header(little: bool, maxalign: nat)

  /** An option of the format, and where the next one begins. */
  datatype FormatOption = FormatOption(h: Header, kind: KOption, size: nat, next: nat)

  /** An option with the padding it needs where it stands. */
  datatype Details = Details(h: Header, kind: KOption, size: nat, ntoalign: nat, next: nat)

  predicate ValidHeader(h: Header) {
    1 <= h.maxalign <= MAXINTSIZE
  }

  predicate LuaInteger(n: int) {
    -0x8000_0000_0000_0000 <= n < 0x8000_0000_0000_0000
  }

  // ----- reading a format -----

  function At(fmt: string, i: nat): char {
    if i < |fmt| then fmt[i] else '\0'
  }

  predicate Digit(c: char) {
    '0' <= c <= '9'
  }

  function DigitValue(c: char): nat
    requires Digit(c)
  {
    (c - '0') as int
  }

  /** The numeral at `i` after some digits that make `a`: no more digits are read once `a` could overflow. */
  function Numeral(fmt: string, i: nat, a: nat): (r: (nat, nat))
    ensures i <= r.1
    ensures i <= |fmt| ==> r.1 <= |fmt|
    ensures a <= INT_MAX ==> r.0 <= INT_MAX
    decreases |fmt| - i
  {
    if Digit(At(fmt, i)) && a <= (INT_MAX - 9) / 10 then Numeral(fmt, i + 1, a * 10 + DigitValue(At(fmt, i))) else (a, i)
  }

  /** `getnum` */
  function GetNum(fmt: string, i: nat, df: int): (r: (int, nat))
    ensures i <= r.1 && (i <= |fmt| ==> r.1 <= |fmt|)
    ensures r.0 == df || 0 <= r.0 <= INT_MAX
  {
    if Digit(At(fmt, i)) then Numeral(fmt, i, 0) else (df, i)
  }

  /** `getnumlimit` */
  function GetNumLimit(fmt: string, i: nat, df: int): (r: Result<(nat, nat)>)
    ensures r.Ok? ==> 1 <= r.value.0 <= MAXINTSIZE && i <= r.value.1 && (i <= |fmt| ==> r.value.1 <= |fmt|)
  {
    var n := GetNum(fmt, i, df);
    if n.0 > MAXINTSIZE || n.0 <= 0 then Bad(SizeLimits) else Ok((n.0, n.1))
  }

  /** `getoption` */
  function GetOption(h: Header, fmt: string, i: nat): (r: Result<FormatOption>)
    requires i < |fmt| && ValidHeader(h)
    ensures r.Ok? ==> ValidHeader(r.value.h) && i < r.value.next <= |fmt|
    ensures r.Ok? && (r.value.kind.Kint? || r.value.kind.Kuint? || r.value.kind.Kstring?) ==> 1 <= r.value.size <= MAXINTSIZE
    ensures r.Ok? && !r.value.kind.Kchar? ==> r.value.size <= MAXINTSIZE
    ensures r.Ok? && (r.value.kind.Kzstr? || r.value.kind.Kpaddalign? || r.value.kind.Knop?) ==> r.value.size == 0
    ensures r.Ok? && r.value.kind.Kpadding? ==> r.value.size == 1
    ensures r.Ok? ==> r.value.size <= INT_MAX
  {
    var c := fmt[i];
    if c == 'b' then Ok(FormatOption(h, Kint, 1, i + 1))
    else if c == 'B' then Ok(FormatOption(h, Kuint, 1, i + 1))
    else if c == 'h' then Ok(FormatOption(h, Kint, 2, i + 1))
    else if c == 'H' then Ok(FormatOption(h, Kuint, 2, i + 1))
    else if c == 'l' || c == 'j' then Ok(FormatOption(h, Kint, 8, i + 1))
    else if c == 'L' || c == 'J' || c == 'T' then Ok(FormatOption(h, Kuint, 8, i + 1))
    else if c == 'f' || c == 'n' || c == 'd' then Bad(FloatOption)
    else if c == 'i' || c == 'I' || c == 's' then
      var n := GetNumLimit(fmt, i + 1, if c == 's' then 8 else 4);
      if n.Bad? then Bad(n.error)
      else Ok(FormatOption(h, if c == 'i' then Kint else if c == 'I' then Kuint else Kstring, n.value.0, n.value.1))
    else if c == 'c' then
      var n := GetNum(fmt, i + 1, -1);
      if n.0 == -1 then Bad(MissingSize) else Ok(FormatOption(h, Kchar, n.0, n.1))
    else if c == 'z' then Ok(FormatOption(h, Kzstr, 0, i + 1))
    else if c == 'x' then Ok(FormatOption(h, Kpadding, 1, i + 1))
    else if c == 'X' then Ok(FormatOption(h, Kpaddalign, 0, i + 1))
    else if c == ' ' then Ok(FormatOption(h, Knop, 0, i + 1))
    else if c == '<' then Ok(FormatOption(h.(little := true), Knop, 0, i + 1))
    else if c == '>' then Ok(FormatOption(h.(little := false), Knop, 0, i + 1))
    else if c == '=' then Ok(FormatOption(h.(little := NATIVE_LITTLE), Knop, 0, i + 1))
    else if c == '!' then
      var n := GetNumLimit(fmt, i + 1, NATIVE_ALIGN);
      if n.Bad? then Bad(n.error) else Ok(FormatOption(h.(maxalign := n.value.0), Knop, 0, n.value.1))
    else Bad(InvalidOption)
  }

  predicate PowerOf2(align: nat) {
    align == 1 || align == 2 || align == 4 || align == 8 || align == 16
  }

  /** How many bytes of padding bring `total` to a multiple of the alignment. */
  function Padding(h: Header, align: nat, total: nat, kind: KOption): (r: Result<nat>)
    requires ValidHeader(h)
    ensures r.Ok? ==> r.value < MAXINTSIZE
  {
    if align <= 1 || kind.Kchar? then Ok(0)
    else
      var a := if align > h.maxalign then h.maxalign else align;
      if !PowerOf2(a) then Bad(NotPowerOf2) else Ok((a - total % a) % a)
  }

  /** What brings a number to a multiple of a power of two. */
  lemma Completes(total: nat, a: nat)
    requires PowerOf2(a)
    ensures var pad := (a - total % a) % a; (total + pad) % a == 0 && pad < a
  {
    if a == 1 {
    } else if a == 2 {
      CompletesConst(total, total / 2, total % 2, 2);
    } else if a == 4 {
      CompletesConst(total, total / 4, total % 4, 4);
    } else if a == 8 {
      CompletesConst(total, total / 8, total % 8, 8);
    } else {
      CompletesConst(total, total / 16, total % 16, 16);
    }
  }

  lemma CompletesConst(total: nat, q: nat, r: nat, a: nat)
    requires a == 2 || a == 4 || a == 8 || a == 16
    requires total == a * q + r && r < a
    ensures var pad := (a - r) % a; (total + pad) % a == 0 && pad < a
  {
    if r != 0 {
      assert total + (a - r) == a * (q + 1);
    }
  }

  /** The padding of an option is the least that aligns it, to no more than the maximum in force. */
  lemma PaddingAligns(h: Header, align: nat, total: nat, kind: KOption)
    requires ValidHeader(h) && !kind.Kchar? && align > 0 && Padding(h, align, total, kind).Ok?
    ensures var a, p := if align > h.maxalign then h.maxalign else align, Padding(h, align, total, kind).value;
            (total + p) % a == 0 && p < a
  {
    var a := if align > h.maxalign then h.maxalign else align;
    if align > 1 { Completes(total, a); }
  }

  /** `getdetails`: alignment follows size, except that `X` aligns as the option after it would. */
  function GetDetails(h: Header, total: nat, fmt: string, i: nat): (r: Result<Details>)
    requires i < |fmt| && ValidHeader(h)
    ensures r.Ok? ==> ValidHeader(r.value.h) && i < r.value.next <= |fmt| && r.value.ntoalign < MAXINTSIZE
    ensures r.Ok? && (r.value.kind.Kint? || r.value.kind.Kuint? || r.value.kind.Kstring?) ==> 1 <= r.value.size <= MAXINTSIZE
    ensures r.Ok? && (r.value.kind.Kzstr? || r.value.kind.Kpaddalign? || r.value.kind.Knop?) ==> r.value.size == 0
    ensures r.Ok? && r.value.kind.Kpadding? ==> r.value.size == 1
    ensures r.Ok? ==> r.value.size <= INT_MAX
  {
    var o := GetOption(h, fmt, i);
    if o.Bad? then Bad(o.error)
    else if o.value.kind.Kpaddalign? then
      (if At(fmt, o.value.next) == '\0' then Bad(InvalidNext)
       else
         var x := GetOption(o.value.h, fmt, o.value.next);
         if x.Bad? then Bad(x.error)
         else if x.value.kind.Kchar? || x.value.size == 0 then Bad(InvalidNext)
         else
           var pad := Padding(x.value.h, x.value.size, total, Kpaddalign);
           if pad.Bad? then Bad(pad.error) else Ok(Details(x.value.h, Kpaddalign, 0, pad.value, x.value.next)))
    else
      var pad := Padding(o.value.h, o.value.size, total, o.value.kind);
      if pad.Bad? then Bad(pad.error) else Ok(Details(o.value.h, o.value.kind, o.value.size, pad.value, o.value.next))
  }

  // ----- integers as bytes -----

  function Pow256(n: nat): (r: int)
    ensures r > 0
  {
    if n == 0 then 1 else 256 * Pow256(n - 1)
  }

  /** The `size` lowest base-256 digits of `v`, least significant first. */
  function Digits(v: nat, size: nat): (r: seq<Byte>)
    ensures |r| == size
  {
    if size == 0 then [] else [v % 256] + Digits(v / 256, size - 1)
  }

  function Number(bytes: seq<Byte>): nat {
    if bytes == [] then 0 else bytes[0] + 256 * Number(bytes[1..])
  }

  function Reverse(bytes: seq<Byte>): (r: seq<Byte>)
    ensures |r| == |bytes| && forall i :: 0 <= i < |r| ==> r[i] == bytes[|bytes| - 1 - i]
  {
    seq(|bytes|, i requires 0 <= i < |bytes| => bytes[|bytes| - 1 - i])
  }

  /** Bytes in the order of the header. */
  function Ordered(bytes: seq<Byte>, little: bool): (r: seq<Byte>)
    ensures |r| == |bytes|
  {
    if little then bytes else Reverse(bytes)
  }

  lemma OrderedTwice(bytes: seq<Byte>, little: bool)
    ensures Ordered(Ordered(bytes, little), little) == bytes
  {
  }

  function Fill(n: nat, b: Byte): (r: seq<Byte>)
    ensures |r| == n && forall i :: 0 <= i < n ==> r[i] == b
  {
    seq(n, _ => b)
  }

  /** `packint`: the 64 bits of `n`, cut to the size or extended to it by zeros, or by its sign when `neg`. */
  function PackInt(n: int, little: bool, size: nat, neg: bool): (r: seq<Byte>)
    requires LuaInteger(n) && 1 <= size <= MAXINTSIZE
    ensures |r| == size
  {
    var u := if n < 0 then n + 0x1_0000_0000_0000_0000 else n;
    var low := Digits(u, if size < SZINT then size else SZINT);
    var high := Fill(size - |low|, if neg then 255 else 0);
    Ordered(low + high, little)
  }

  /** `unpackint` */
  function UnpackInt(bytes: seq<Byte>, little: bool, size: nat, signed: bool): (r: Result<int>)
    requires |bytes| == size && 1 <= size <= MAXINTSIZE
  {
    var b := Ordered(bytes, little);
    var limit := if size < SZINT then size else SZINT;
    var u := Number(b[..limit]);
    if size < SZINT then Ok(if signed && u >= Pow256(size) / 2 then u - Pow256(size) else u)
    else
      var n := if u >= 0x8000_0000_0000_0000 then u - 0x1_0000_0000_0000_0000 else u;
      var mask := if signed && n < 0 then 255 else 0;
      if exists i :: limit <= i < size && b[i] != mask then Bad(DoesNotFit) else Ok(n)
  }

  lemma {:induction false} DigitsNumber(v: nat, size: nat)
    requires v < Pow256(size)
    ensures Number(Digits(v, size)) == v
  {
    if size > 0 {
      DigitsNumber(v / 256, size - 1);
    }
  }

  /** `k` times 256 to the `size`. */
  function Shifted(k: nat, size: nat): nat {
    if size == 0 then k else 256 * Shifted(k, size - 1)
  }

  lemma {:induction false} ShiftedPow(j: nat, size: nat)
    ensures Shifted(Pow256(j) - 1, size) == Pow256(j + size) - Pow256(size)
  {
    if size > 0 {
      ShiftedPow(j, size - 1);
    }
  }

  /** Higher digits do not show in lower ones. */
  lemma {:induction false} DigitsLow(v: nat, k: nat, size: nat)
    ensures Digits(v + Shifted(k, size), size) == Digits(v, size)
  {
    if size > 0 {
      var m := Shifted(k, size - 1);
      DigitsLow(v / 256, k, size - 1);
      assert (v + 256 * m) % 256 == v % 256 && (v + 256 * m) / 256 == v / 256 + m;
    }
  }

  lemma PowSizes()
    ensures Pow256(1) == 0x100 && Pow256(2) == 0x1_0000 && Pow256(3) == 0x100_0000 && Pow256(4) == 0x1_0000_0000
    ensures Pow256(5) == 0x100_0000_0000 && Pow256(6) == 0x1_0000_0000_0000 && Pow256(7) == 0x100_0000_0000_0000
    ensures Pow256(8) == 0x1_0000_0000_0000_0000
  {
    assert Pow256(0) == 1;
    assert Pow256(1) == 0x100;
    assert Pow256(2) == 0x1_0000;
    assert Pow256(3) == 0x100_0000;
    assert Pow256(4) == 0x1_0000_0000;
    assert Pow256(5) == 0x100_0000_0000;
    assert Pow256(6) == 0x1_0000_0000_0000;
    assert Pow256(7) == 0x100_0000_0000_0000;
  }

  /** The range checks of `str_pack` are what makes an integer survive. */
  predicate Fits(n: int, size: nat, signed: bool) {
    LuaInteger(n)
    && (size < SZINT ==> if signed then -Pow256(size) / 2 <= n < Pow256(size) / 2 else 0 <= n < Pow256(size))
  }

  /** The digits of a Lua integer, taken as unsigned and cut to fewer bytes than it has. */
  lemma ShortDigits(n: int, size: nat)
    requires 1 <= size < SZINT && LuaInteger(n) && -Pow256(size) <= n < Pow256(size)
    ensures Number(Digits(if n < 0 then n + 0x1_0000_0000_0000_0000 else n, size)) == if n < 0 then n + Pow256(size) else n
  {
    PowSizes();
    if n < 0 {
      ShiftedPow(8 - size, size);
      DigitsLow(n + Pow256(size), Pow256(8 - size) - 1, size);
      DigitsNumber(n + Pow256(size), size);
    } else {
      DigitsNumber(n, size);
    }
  }

  /** What is packed is unpacked, for every size, byte order and signedness. */
  lemma UnpackPacked(n: int, little: bool, size: nat, signed: bool)
    requires 1 <= size <= MAXINTSIZE && Fits(n, size, signed)
    ensures UnpackInt(PackInt(n, little, size, signed && n < 0), little, size, signed) == Ok(n)
  {
    var u := if n < 0 then n + 0x1_0000_0000_0000_0000 else n;
    var limit := if size < SZINT then size else SZINT;
    var low := Digits(u, limit);
    var high := Fill(size - limit, if signed && n < 0 then 255 else 0);
    OrderedTwice(low + high, little);
    assert Ordered(PackInt(n, little, size, signed && n < 0), little) == low + high;
    hide PackInt, Ordered, UnpackInt, Digits;
    if size < SZINT {
      assert Number(low) == if n < 0 then n + Pow256(size) else n by {
        PowSizes();
        ShortDigits(n, size);
      }
      UnpackShort(PackInt(n, little, size, signed && n < 0), little, size, signed, low, n);
    } else {
      assert Number(low) == u by {
        PowSizes();
        DigitsNumber(u, SZINT);
      }
      UnpackLong(PackInt(n, little, size, signed && n < 0), little, size, signed, low, high, n);
    }
  }

  lemma UnpackShort(bytes: seq<Byte>, little: bool, size: nat, signed: bool, low: seq<Byte>, n: int)
    requires 1 <= size < SZINT && |bytes| == size && Ordered(bytes, little) == low && Fits(n, size, signed)
    requires Number(low) == if n < 0 then n + Pow256(size) else n
    ensures UnpackInt(bytes, little, size, signed) == Ok(n)
  {
    hide Number, Pow256;
    assert low[..size] == low;
    HalfFits(n, size, signed);
  }

  lemma UnpackLong(bytes: seq<Byte>, little: bool, size: nat, signed: bool, low: seq<Byte>, high: seq<Byte>, n: int)
    requires SZINT <= size <= MAXINTSIZE && |bytes| == size && Ordered(bytes, little) == low + high && |low| == SZINT
    requires LuaInteger(n) && Number(low) == if n < 0 then n + 0x1_0000_0000_0000_0000 else n
    requires forall i :: 0 <= i < |high| ==> high[i] == if signed && n < 0 then 255 else 0
    ensures UnpackInt(bytes, little, size, signed) == Ok(n)
  {
    hide Number, Pow256;
    assert (low + high)[..SZINT] == low;
    assert forall i :: SZINT <= i < size ==> (low + high)[i] == high[i - SZINT];
  }

  lemma HalfFits(n: int, size: nat, signed: bool)
    requires 1 <= size < SZINT && Fits(n, size, signed)
    ensures var u := if n < 0 then n + Pow256(size) else n;
            n == if signed && u >= Pow256(size) / 2 then u - Pow256(size) else u
  {
    PowSizes();
  }

  /** Reading any bytes of a size up to that of a Lua integer and writing them again gives the same bytes. */
  lemma {:induction false} NumberDigits(bytes: seq<Byte>)
    ensures Digits(Number(bytes), |bytes|) == bytes && Number(bytes) < Pow256(|bytes|)
  {
    if bytes != [] {
      NumberDigits(bytes[1..]);
      LowestDigit(bytes[0], Number(bytes[1..]));
    }
  }

  lemma LowestDigit(b: Byte, rest: nat)
    ensures (b + 256 * rest) % 256 == b && (b + 256 * rest) / 256 == rest
  {
  }
}
