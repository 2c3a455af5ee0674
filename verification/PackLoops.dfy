/** The loops of `string.pack` and `string.unpack`: bytes written into a buffer in either order, and formats walked from
    one option to the next. */
module PackLoops {
  import opened Wrappers
  import opened PackFormat
  import opened Pack

  /** `getnum` */
  method ReadNum(fmt: string, from: nat, df: int) returns (a: int, i: nat)
    ensures (a, i) == GetNum(fmt, from, df)
  {
    i := from;
    if !Digit(At(fmt, i)) {
      return df, i;
    }
    a := DigitValue(At(fmt, i));
    i := i + 1;
    while Digit(At(fmt, i)) && a <= (INT_MAX - 9) / 10
      invariant a >= 0 && Numeral(fmt, i, a) == Numeral(fmt, from, 0)
      decreases |fmt| - i
    {
      a := a * 10 + DigitValue(At(fmt, i));
      i := i + 1;
    }
  }

  /** `getnumlimit` */
  method ReadNumLimit(fmt: string, from: nat, df: int) returns (r: Result<(nat, nat)>)
    ensures r == GetNumLimit(fmt, from, df)
  {
    var sz, i := ReadNum(fmt, from, df);
    if sz > MAXINTSIZE || sz <= 0 {
      return Bad(SizeLimits);
    }
    r := Ok((sz, i));
  }

  /** `getoption`: the header may change, and the position moves past the option and its size. */
  method ReadOption(h: Header, fmt: string, i: nat) returns (r: Result<FormatOption>)
    requires i < |fmt| && ValidHeader(h)
    ensures r == GetOption(h, fmt, i)
  {
    hide GetNum, GetNumLimit;
    var opt := fmt[i];
    var size, next, little, kind := 0, i + 1, h.little, Knop;
    match opt {
      case 'b' => size, kind := 1, Kint;
      case 'B' => size, kind := 1, Kuint;
      case 'h' => size, kind := 2, Kint;
      case 'H' => size, kind := 2, Kuint;
      case 'l' => size, kind := 8, Kint;
      case 'L' => size, kind := 8, Kuint;
      case 'j' => size, kind := 8, Kint;
      case 'J' => size, kind := 8, Kuint;
      case 'T' => size, kind := 8, Kuint;
      case 'f' => return Bad(FloatOption);
      case 'n' => return Bad(FloatOption);
      case 'd' => return Bad(FloatOption);
      case 'z' => kind := Kzstr;
      case 'x' => size, kind := 1, Kpadding;
      case 'X' => kind := Kpaddalign;
      case ' ' =>
      case '<' => little := true;
      case '>' => little := false;
      case '=' => little := NATIVE_LITTLE;
      case _ =>
        r := ReadSized(h, fmt, i);
        return;
    }
    r := Ok(FormatOption(h.(little := little), kind, size, next));
  }

  /** The options of `getoption` with a number after them. */
  method ReadSized(h: Header, fmt: string, i: nat) returns (r: Result<FormatOption>)
    requires i < |fmt| && ValidHeader(h) && fmt[i] !in "bBhHlLjJTfndzxX <>="
    ensures r == GetOption(h, fmt, i)
  {
    hide GetNum, GetNumLimit;
    var opt := fmt[i];
    if opt == 'c' {
      var size, next := ReadNum(fmt, i + 1, -1);
      if size == -1 {
        return Bad(MissingSize);
      }
      return Ok(FormatOption(h, Kchar, size, next));
    }
    if opt != 'i' && opt != 'I' && opt != 's' && opt != '!' {
      return Bad(InvalidOption);
    }
    var n := ReadNumLimit(fmt, i + 1, if opt == 's' || opt == '!' then 8 else 4);
    if n.Bad? {
      return Bad(n.error);
    }
    match opt {
      case 'i' => r := Ok(FormatOption(h, Kint, n.value.0, n.value.1));
      case 'I' => r := Ok(FormatOption(h, Kuint, n.value.0, n.value.1));
      case 's' => r := Ok(FormatOption(h, Kstring, n.value.0, n.value.1));
      case _ => r := Ok(FormatOption(h.(maxalign := n.value.0), Knop, 0, n.value.1));
    }
  }

  /** `getdetails` */
  method ReadDetails(h0: Header, total: nat, fmt: string, i: nat) returns (r: Result<Details>)
    requires i < |fmt| && ValidHeader(h0)
    ensures r == GetDetails(h0, total, fmt, i)
  {
    hide GetOption;
    var o := ReadOption(h0, fmt, i);
    if o.Bad? {
      return Bad(o.error);
    }
    var kind, h, next, align := o.value.kind, o.value.h, o.value.next, o.value.size;
    if kind.Kpaddalign? {
      if At(fmt, next) == '\0' {
        return Bad(InvalidNext);
      }
      var x := ReadOption(h, fmt, next);
      if x.Bad? {
        return Bad(x.error);
      }
      h, next, align := x.value.h, x.value.next, x.value.size;
      if x.value.kind.Kchar? || align == 0 {
        return Bad(InvalidNext);
      }
    }
    var ntoalign := 0;
    if align > 1 && !kind.Kchar? {
      if align > h.maxalign {
        align := h.maxalign;
      }
      if !PowerOf2(align) {
        return Bad(NotPowerOf2);
      }
      ntoalign := (align - total % align) % align;
    }
    r := Ok(Details(h, kind, o.value.size, ntoalign, next));
  }

  /** Zeros added to a buffer, one at a time. */
  method AddZeros(b: seq<Byte>, n: nat) returns (r: seq<Byte>)
    ensures r == b + Fill(n, 0)
  {
    r := b;
    var left: nat := n;
    while left > 0
      invariant left <= n && r == b + Fill(n - left, 0)
    {
      r := r + [0];
      left := left - 1;
      assert Fill(n - left, 0) == Fill(n - left - 1, 0) + [0];
    }
  }

  /** Where byte `j`, counted from the least significant one, stands in `size` bytes. */
  function Place(j: nat, size: nat, little: bool): (k: nat)
    requires j < size
    ensures k < size
  {
    if little then j else size - 1 - j
  }

  lemma PlacesAre(bytes: seq<Byte>, little: bool, j: nat)
    requires j < |bytes|
    ensures Ordered(bytes, little)[Place(j, |bytes|, little)] == bytes[j]
    ensures bytes[Place(j, |bytes|, little)] == Ordered(bytes, little)[j]
  {
  }

  lemma {:induction false} DigitsAt(v: nat, size: nat, j: nat)
    requires j <= size
    ensures Digits(v, size)[j..] == Digits(Dropped(v, j), size - j)
  {
    if j > 0 {
      DigitsAt(v / 256, size - 1, j - 1);
      assert Digits(v, size)[j..] == Digits(v / 256, size - 1)[j - 1..];
    }
  }

  /** `v` shifted right by `j` bytes. */
  function Dropped(v: nat, j: nat): nat {
    if j == 0 then v else Dropped(v / 256, j - 1)
  }

  lemma {:induction false} DroppedNext(v: nat, j: nat)
    ensures Dropped(v, j + 1) == Dropped(v, j) / 256
  {
    if j > 0 {
      DroppedNext(v / 256, j - 1);
    }
  }

  lemma DigitAt(v: nat, size: nat, j: nat)
    requires j < size
    ensures Digits(v, size)[j] == Dropped(v, j) % 256
  {
    DigitsAt(v, size, j);
    assert Digits(v, size)[j] == Digits(v, size)[j..][0];
  }

  lemma {:induction false} DroppedOfZero(j: nat)
    ensures Dropped(0, j) == 0
  {
    if j > 0 {
      DroppedOfZero(j - 1);
    }
  }

  lemma {:induction false} DroppedMore(v: nat, j: nat, k: nat)
    requires v < Pow256(j) && j <= k
    ensures Dropped(v, k) == 0
    decreases j
  {
    if j == 0 {
      DroppedOfZero(k);
    } else {
      DroppedMore(v / 256, j - 1, k - 1);
    }
  }

  /** The byte that `packint` puts at place `j`. */
  function PackedByte(n: int, size: nat, neg: bool, j: nat): Byte
    requires LuaInteger(n) && j < size
  {
    var u := if n < 0 then n + 0x1_0000_0000_0000_0000 else n;
    if neg && j >= SZINT then 255 else Dropped(u, j) % 256
  }

  lemma NoneLeft(u: nat, j: nat)
    requires u < 0x1_0000_0000_0000_0000 && j >= SZINT
    ensures Dropped(u, j) == 0
  {
    PowSizes();
    DroppedMore(u, SZINT, j);
  }

  lemma PackedIs(n: int, little: bool, size: nat, neg: bool, j: nat)
    requires LuaInteger(n) && 1 <= size <= MAXINTSIZE && j < size
    ensures PackInt(n, little, size, neg)[Place(j, size, little)] == PackedByte(n, size, neg, j)
  {
    var u := if n < 0 then n + 0x1_0000_0000_0000_0000 else n;
    var limit := if size < SZINT then size else SZINT;
    var low := Digits(u, limit);
    var all := low + Fill(size - limit, if neg then 255 else 0);
    assert PackInt(n, little, size, neg) == Ordered(all, little);
    hide Pow256, Digits, Dropped, Ordered, Place, PackInt;
    PlacesAre(all, little, j);
    if j < limit {
      DigitAt(u, limit, j);
      assert all[j] == low[j];
    } else {
      NoneLeft(u, j);
      assert all[j] == if neg then 255 else 0;
    }
  }

  /** `packint` */
  method PackInteger(n: int, little: bool, size: nat, neg: bool) returns (buff: array<Byte>)
    requires LuaInteger(n) && 1 <= size <= MAXINTSIZE
    ensures fresh(buff) && buff[..] == PackInt(n, little, size, neg)
  {
    buff := new Byte[size](_ => 0);
    var u: nat := if n < 0 then n + 0x1_0000_0000_0000_0000 else n;
    ghost var start := u;
    buff[Place(0, size, little)] := u % 256;
    var i := 1;
    while i < size
      invariant 1 <= i <= size && u == Dropped(start, i - 1)
      invariant forall j :: 0 <= j < i ==> buff[Place(j, size, little)] == Dropped(start, j) % 256
    {
      DroppedNext(start, i - 1);
      u := u / 256;
      buff[Place(i, size, little)] := u % 256;
      i := i + 1;
    }
    if neg && size > SZINT {
      i := SZINT;
      while i < size
        invariant SZINT <= i <= size
        invariant forall j :: 0 <= j < size ==>
                    buff[Place(j, size, little)] == if SZINT <= j < i then 255 else Dropped(start, j) % 256
      {
        buff[Place(i, size, little)] := 255;
        i := i + 1;
      }
    }
    forall k | 0 <= k < size ensures buff[k] == PackInt(n, little, size, neg)[k] {
      var j := Place(k, size, little);
      PackedIs(n, little, size, neg, j);
      assert Place(j, size, little) == k;
    }
  }

  lemma NumberStep(bytes: seq<Byte>, i: nat)
    requires i < |bytes|
    ensures Number(bytes[i..]) == bytes[i] + 256 * Number(bytes[i + 1..])
  {
    assert bytes[i..][1..] == bytes[i + 1..];
  }

  /** The sign extension of `unpackint`, which flips the sign bit and subtracts it, modulo 2^64. */
  function Extended(u: nat, size: nat): int
    requires 1 <= size < SZINT
  {
    var mask := Pow256(size) / 2;
    var flipped := if u >= mask then u - mask else u + mask;
    var r := (flipped - mask) % 0x1_0000_0000_0000_0000;
    if r >= 0x8000_0000_0000_0000 then r - 0x1_0000_0000_0000_0000 else r
  }

  lemma ExtendedIs(u: nat, size: nat)
    requires 1 <= size < SZINT && u < Pow256(size)
    ensures Extended(u, size) == if u >= Pow256(size) / 2 then u - Pow256(size) else u
  {
    HalfIs(size);
    hide Pow256;
  }

  lemma HalfIs(size: nat)
    requires 1 <= size < SZINT
    ensures Pow256(size) == 2 * (Pow256(size) / 2) && 0 < Pow256(size) <= 0x100_0000_0000_0000
  {
    PowSizes();
    hide Pow256;
  }

  /** `unpackint` */
  method UnpackInteger(str: seq<Byte>, little: bool, size: nat, signed: bool) returns (r: Result<int>)
    requires |str| == size && 1 <= size <= MAXINTSIZE
    ensures r == UnpackInt(str, little, size, signed)
  {
    ghost var b := Ordered(str, little);
    var limit := if size <= SZINT then size else SZINT;
    var res: nat := 0;
    var i: nat := limit;
    assert Number([]) == 0 && b[..limit][limit..] == [];
    while i > 0
      invariant 0 <= i <= limit && res == Number(b[..limit][i..])
    {
      i := i - 1;
      NumberStep(b[..limit], i);
      PlacesAre(str, little, i);
      res := res * 256 + str[Place(i, size, little)];
    }
    assert b[..limit][0..] == b[..limit];
    if size < SZINT {
      if signed {
        NumberDigits(b[..limit]);
        ExtendedIs(res, size);
        return Ok(Extended(res, size));
      }
      return Ok(res);
    }
    var n := if res >= 0x8000_0000_0000_0000 then res - 0x1_0000_0000_0000_0000 else res;
    if size > SZINT {
      var mask := if !signed || n >= 0 then 0 else 255;
      i := limit;
      while i < size
        invariant limit <= i <= size && forall j :: limit <= j < i ==> b[j] == mask
      {
        PlacesAre(str, little, i);
        if str[Place(i, size, little)] != mask {
          return Bad(DoesNotFit);
        }
        i := i + 1;
      }
    }
    r := Ok(n);
  }

  /** The bytes of one option in `str_pack`. */
  method WriteItem(d: Details, arg: Value) returns (r: Result<seq<Byte>>)
    requires d.kind.Kint? || d.kind.Kuint? || d.kind.Kstring? ==> 1 <= d.size <= MAXINTSIZE
    ensures r == PackItem(d, arg)
  {
    hide PackInt, Fits;
    match d.kind {
      case Kchar => r := WriteChars(d, arg);
      case Kzstr => r := WriteZstr(d, arg);
      case Kpadding => r := Ok([0]);
      case Kpaddalign => r := Ok([]);
      case Knop => r := Ok([]);
      case _ => r := WriteCounted(d, arg);
    }
  }

  /** An integer, or a string after its length. */
  method WriteCounted(d: Details, arg: Value) returns (r: Result<seq<Byte>>)
    requires (d.kind.Kint? || d.kind.Kuint? || d.kind.Kstring?) && 1 <= d.size <= MAXINTSIZE
    ensures r == PackItem(d, arg)
  {
    hide PackInt, Fits;
    if d.kind.Kstring? {
      if !arg.Str? || !LuaInteger(|arg.s|) {
        return Bad(BadArgument);
      }
      if !Fits(|arg.s|, d.size, false) {
        return Bad(LengthDoesNotFit);
      }
      var buff := PackInteger(|arg.s|, d.h.little, d.size, false);
      return Ok(buff[..] + arg.s);
    }
    if !arg.Int? || !LuaInteger(arg.n) {
      return Bad(BadArgument);
    }
    if !Fits(arg.n, d.size, d.kind.Kint?) {
      return Bad(if d.kind.Kint? then IntegerOverflow else UnsignedOverflow);
    }
    var buff := PackInteger(arg.n, d.h.little, d.size, d.kind.Kint? && arg.n < 0);
    r := Ok(buff[..]);
  }

  /** A string of fixed size, with zeros in the space left. */
  method WriteChars(d: Details, arg: Value) returns (r: Result<seq<Byte>>)
    requires d.kind.Kchar?
    ensures r == PackItem(d, arg)
  {
    if !arg.Str? {
      return Bad(BadArgument);
    }
    if |arg.s| > d.size {
      return Bad(StringTooLong);
    }
    var b := AddZeros(arg.s, d.size - |arg.s|);
    r := Ok(b);
  }

  /** A string up to its terminator, which `strlen` must find at its end. */
  method WriteZstr(d: Details, arg: Value) returns (r: Result<seq<Byte>>)
    requires d.kind.Kzstr?
    ensures r == PackItem(d, arg)
  {
    if !arg.Str? {
      return Bad(BadArgument);
    }
    var len := FindZero(arg.s, 0);
    if len != |arg.s| {
      return Bad(ContainsZeros);
    }
    r := Ok(arg.s + [0]);
  }

  /** What is written so far and what is still to come make up the whole. */
  ghost predicate PackResumes(whole: Result<seq<Byte>>, b: seq<Byte>, rest: Result<seq<Byte>>) {
    if rest.Bad? then whole == rest else whole == Ok(b + rest.value)
  }

  lemma PackMore(b: seq<Byte>, bytes: seq<Byte>, whole: Result<seq<Byte>>, here: Result<seq<Byte>>, rest: Result<seq<Byte>>)
    requires PackResumes(whole, b, here) && here == (if rest.Bad? then rest else Ok(bytes + rest.value))
    ensures PackResumes(whole, b + bytes, rest)
  {
    if rest.Ok? { assert b + (bytes + rest.value) == b + bytes + rest.value; }
  }

  /** `str_pack` from option `i` and argument `arg` on. */
  function PackAt(fmt: string, i: nat, h: Header, args: seq<Value>, arg: nat, total: nat): Result<seq<Byte>>
    requires i <= |fmt| && ValidHeader(h) && arg <= |args|
  {
    PackFrom(fmt, i, h, args[arg..], total)
  }

  /** One turn of the loop of `str_pack`: the bytes added, where the next option is, its header, and the next argument. */
  method PackTurn(fmt: string, i: nat, h: Header, args: seq<Value>, arg: nat, total: nat)
      returns (r: Result<(seq<Byte>, nat, Header, nat)>)
    requires i < |fmt| && ValidHeader(h) && At(fmt, i) != '\0' && arg <= |args|
    ensures r.Bad? ==> PackAt(fmt, i, h, args, arg, total) == Bad(r.error)
    ensures r.Ok? ==>
              var (bytes, next, h', arg') := r.value;
              && i < next <= |fmt| && ValidHeader(h') && arg <= arg' <= |args|
              && var rest := PackAt(fmt, next, h', args, arg', total + |bytes|);
                 PackAt(fmt, i, h, args, arg, total) == if rest.Bad? then rest else Ok(bytes + rest.value)
  {
    hide GetDetails, PackItem, Fill, ValidHeader;
    var d := ReadDetails(h, total, fmt, i);
    if d.Bad? {
      return Bad(d.error);
    }
    var takes := TakesArgument(d.value.kind);
    if takes && arg == |args| {
      return Bad(BadArgument);
    }
    var item := WriteItem(d.value, if takes then args[arg] else Int(0));
    if item.Bad? {
      return Bad(item.error);
    }
    if takes { assert args[arg..][0] == args[arg] && args[arg..][1..] == args[arg + 1..]; }
    var b := AddZeros([], d.value.ntoalign);
    assert b == Fill(d.value.ntoalign, 0);
    b := b + item.value;
    r := Ok((b, d.value.next, d.value.h, if takes then arg + 1 else arg));
  }

  /** `str_pack` */
  method StrPack(fmt: string, args: seq<Value>) returns (r: Result<seq<Byte>>)
    ensures r == PackFrom(fmt, 0, Start(), args, 0)
  {
    hide PackAt, PackFrom, PackResumes, ValidHeader, Start;
    var h, i, arg: nat, totalsize: nat := Start(), 0, 0, 0;
    var b: seq<Byte> := [];
    PackStarts(fmt, args);
    ghost var whole := PackFrom(fmt, 0, h, args, 0);
    while At(fmt, i) != '\0'
      invariant i <= |fmt| && arg <= |args| && ValidHeader(h)
      invariant PackResumes(whole, b, PackAt(fmt, i, h, args, arg, totalsize))
      decreases |fmt| - i
    {
      ghost var here := PackAt(fmt, i, h, args, arg, totalsize);
      var turn := PackTurn(fmt, i, h, args, arg, totalsize);
      if turn.Bad? {
        PackFails(whole, b, here);
        return Bad(turn.error);
      }
      var bytes := turn.value.0;
      i, h, arg := turn.value.1, turn.value.2, turn.value.3;
      totalsize := totalsize + |bytes|;
      PackMore(b, bytes, whole, here, PackAt(fmt, i, h, args, arg, totalsize));
      b := b + bytes;
    }
    PackOver(fmt, i, h, args, arg, totalsize, b, whole);
    r := Ok(b);
  }

  lemma PackStarts(fmt: string, args: seq<Value>)
    ensures ValidHeader(Start())
    ensures PackResumes(PackFrom(fmt, 0, Start(), args, 0), [], PackAt(fmt, 0, Start(), args, 0, 0))
  {
    hide PackFrom;
    var whole := PackFrom(fmt, 0, Start(), args, 0);
    assert args[0..] == args;
    if whole.Ok? { assert [] + whole.value == whole.value; }
  }

  lemma PackFails(whole: Result<seq<Byte>>, b: seq<Byte>, here: Result<seq<Byte>>)
    requires PackResumes(whole, b, here) && here.Bad?
    ensures whole == here
  {
  }

  lemma PackOver(fmt: string, i: nat, h: Header, args: seq<Value>, arg: nat, total: nat, b: seq<Byte>,
                 whole: Result<seq<Byte>>)
    requires i <= |fmt| && ValidHeader(h) && arg <= |args| && At(fmt, i) == '\0'
    requires PackResumes(whole, b, PackAt(fmt, i, h, args, arg, total))
    ensures whole == Ok(b)
  {
    assert b + [] == b;
  }

  /** `strlen` from `pos` on, in data that end with a terminator. */
  method FindZero(data: seq<Byte>, pos: nat) returns (z: nat)
    requires pos <= |data|
    ensures z == ZeroAt(data, pos)
  {
    z := pos;
    while z < |data| && data[z] != 0
      invariant pos <= z <= |data| && ZeroAt(data, pos) == ZeroAt(data, z)
    {
      z := z + 1;
    }
  }

  /** The value of one option in `str_unpack`. */
  method ReadItem(d: Details, data: seq<Byte>, pos: nat) returns (r: Result<(seq<Value>, nat)>)
    requires pos + d.size <= |data|
    requires d.kind.Kint? || d.kind.Kuint? || d.kind.Kstring? ==> 1 <= d.size <= MAXINTSIZE
    ensures r == UnpackItem(d, data, pos)
  {
    hide UnpackInt, ZeroAt;
    if d.kind.Kint? || d.kind.Kuint? || d.kind.Kstring? {
      var n := UnpackInteger(data[pos..pos + d.size], d.h.little, d.size, d.kind.Kint?);
      if n.Bad? {
        return Bad(n.error);
      }
      if !d.kind.Kstring? {
        return Ok(([Int(n.value)], pos + d.size));
      }
      var len := if n.value < 0 then n.value + 0x1_0000_0000_0000_0000 else n.value;
      if len < 0 || len > |data| - pos - d.size {
        return Bad(DataTooShort);
      }
      r := Ok(([Str(data[pos + d.size..pos + d.size + len])], pos + d.size + len));
    } else if d.kind.Kzstr? {
      var z := FindZero(data, pos);
      r := if z == |data| then Bad(Unfinished) else Ok(([Str(data[pos..z])], z + 1));
    } else if d.kind.Kchar? {
      r := Ok(([Str(data[pos..pos + d.size])], pos + d.size));
    } else {
      r := Ok(([], pos + d.size));
    }
  }

  ghost predicate UnpackResumes(whole: Result<(seq<Value>, nat)>, values: seq<Value>, rest: Result<(seq<Value>, nat)>) {
    if rest.Bad? then whole == rest else whole == Ok((values + rest.value.0, rest.value.1))
  }

  lemma UnpackMore(values: seq<Value>, more: seq<Value>, whole: Result<(seq<Value>, nat)>, here: Result<(seq<Value>, nat)>,
                   rest: Result<(seq<Value>, nat)>)
    requires UnpackResumes(whole, values, here)
    requires here == if rest.Bad? then rest else Ok((more + rest.value.0, rest.value.1))
    ensures UnpackResumes(whole, values + more, rest)
  {
    if rest.Ok? { assert values + (more + rest.value.0) == values + more + rest.value.0; }
  }

  lemma UnpackFails(whole: Result<(seq<Value>, nat)>, values: seq<Value>, here: Result<(seq<Value>, nat)>)
    requires UnpackResumes(whole, values, here) && here.Bad?
    ensures whole == here
  {
  }

  /** One turn of the loop of `str_unpack`: the value read if any, where the next option is, its header, and the position
      after the item. */
  method UnpackTurn(fmt: string, i: nat, h: Header, data: seq<Byte>, pos: nat)
      returns (r: Result<(seq<Value>, nat, Header, nat)>)
    requires i < |fmt| && ValidHeader(h) && At(fmt, i) != '\0' && pos <= |data|
    ensures r.Bad? ==> UnpackFrom(fmt, i, h, data, pos) == Bad(r.error)
    ensures r.Ok? ==>
              var (more, next, h', pos') := r.value;
              && i < next <= |fmt| && ValidHeader(h') && pos' <= |data|
              && var rest := UnpackFrom(fmt, next, h', data, pos');
                 UnpackFrom(fmt, i, h, data, pos) == if rest.Bad? then rest else Ok((more + rest.value.0, rest.value.1))
  {
    hide GetDetails, UnpackItem, ValidHeader;
    var d := ReadDetails(h, pos, fmt, i);
    if d.Bad? {
      return Bad(d.error);
    }
    if d.value.ntoalign + d.value.size > |data| - pos {
      return Bad(DataTooShort);
    }
    var item := ReadItem(d.value, data, pos + d.value.ntoalign);
    if item.Bad? {
      return Bad(item.error);
    }
    r := Ok((item.value.0, d.value.next, d.value.h, item.value.1));
  }

  /** `str_unpack` from the start of the data; it also gives the position after the last item read, counted from 0. */
  method StrUnpack(fmt: string, data: seq<Byte>) returns (r: Result<(seq<Value>, nat)>)
    ensures r == UnpackFrom(fmt, 0, Start(), data, 0)
  {
    var h, i, pos: nat := Start(), 0, 0;
    var values: seq<Value> := [];
    ghost var whole := UnpackFrom(fmt, 0, h, data, 0);
    assert UnpackResumes(whole, values, whole) by {
      if whole.Ok? {
        assert [] + whole.value.0 == whole.value.0;
      }
    }
    assert ValidHeader(h);
    hide UnpackFrom, UnpackResumes, ValidHeader;
    while At(fmt, i) != '\0'
      invariant i <= |fmt| && pos <= |data| && ValidHeader(h)
      invariant UnpackResumes(whole, values, UnpackFrom(fmt, i, h, data, pos))
      decreases |fmt| - i
    {
      var turn := UnpackTurn(fmt, i, h, data, pos);
      if turn.Bad? {
        UnpackFails(whole, values, UnpackFrom(fmt, i, h, data, pos));
        return Bad(turn.error);
      }
      var (more, next, h', pos') := turn.value;
      UnpackMore(values, more, whole, UnpackFrom(fmt, i, h, data, pos), UnpackFrom(fmt, next, h', data, pos'));
      values := values + more;
      i, h, pos := next, h', pos';
    }
    UnpackOver(fmt, i, h, data, pos, values, whole);
    r := Ok((values, pos));
  }

  lemma UnpackOver(fmt: string, i: nat, h: Header, data: seq<Byte>, pos: nat, values: seq<Value>,
                   whole: Result<(seq<Value>, nat)>)
    requires i <= |fmt| && ValidHeader(h) && pos <= |data| && At(fmt, i) == '\0'
    requires UnpackResumes(whole, values, UnpackFrom(fmt, i, h, data, pos))
    ensures whole == Ok((values, pos))
  {
    assert values + [] == values;
  }

  lemma SizeOne(fmt: string, i: nat, h: Header, total: nat)
    requires i < |fmt| && ValidHeader(h) && At(fmt, i) != '\0'
    ensures var d := GetDetails(h, total, fmt, i);
            SizeFrom(fmt, i, h, total) ==
            if d.Bad? then Bad(d.error)
            else if d.value.kind.Kstring? || d.value.kind.Kzstr? then Bad(VariableLength)
            else if total > INT_MAX - (d.value.size + d.value.ntoalign) then Bad(TooLarge)
            else SizeFrom(fmt, d.value.next, d.value.h, total + (d.value.size + d.value.ntoalign))
  {
    hide GetDetails;
  }

  lemma SizeOver(fmt: string, i: nat, h: Header, total: nat)
    requires i <= |fmt| && ValidHeader(h) && At(fmt, i) == '\0'
    ensures SizeFrom(fmt, i, h, total) == Ok(total)
  {
  }

  /** One turn of the loop of `str_packsize`: where the next option is, the header and the size after it. */
  method SizeTurn(fmt: string, i: nat, h: Header, total: nat) returns (r: Result<(nat, Header, nat)>)
    requires i < |fmt| && ValidHeader(h) && At(fmt, i) != '\0'
    ensures r.Bad? ==> SizeFrom(fmt, i, h, total) == Bad(r.error)
    ensures r.Ok? ==> i < r.value.0 <= |fmt| && ValidHeader(r.value.1)
                      && SizeFrom(fmt, i, h, total) == SizeFrom(fmt, r.value.0, r.value.1, r.value.2)
  {
    hide SizeFrom, ValidHeader, GetDetails;
    SizeOne(fmt, i, h, total);
    var d := ReadDetails(h, total, fmt, i);
    if d.Bad? {
      return Bad(d.error);
    }
    if d.value.kind.Kstring? || d.value.kind.Kzstr? {
      return Bad(VariableLength);
    }
    var size := d.value.size + d.value.ntoalign;
    if total > INT_MAX - size {
      return Bad(TooLarge);
    }
    r := Ok((d.value.next, d.value.h, total + size));
  }

  /** `str_packsize` */
  method StrPackSize(fmt: string) returns (r: Result<nat>)
    ensures r == SizeFrom(fmt, 0, Start(), 0)
  {
    var h, i, totalsize: nat := Start(), 0, 0;
    assert ValidHeader(Start());
    hide SizeFrom, ValidHeader;
    while At(fmt, i) != '\0'
      invariant i <= |fmt| && ValidHeader(h)
      invariant SizeFrom(fmt, 0, Start(), 0) == SizeFrom(fmt, i, h, totalsize)
      decreases |fmt| - i
    {
      var turn := SizeTurn(fmt, i, h, totalsize);
      if turn.Bad? {
        return Bad(turn.error);
      }
      i, h, totalsize := turn.value.0, turn.value.1, turn.value.2;
    }
    SizeOver(fmt, i, h, totalsize);
    r := Ok(totalsize);
  }
}
