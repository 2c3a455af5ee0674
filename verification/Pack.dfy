/** `string.pack`, `string.packsize` and `string.unpack`: what one writes the other reads back. */
module Pack {
  import opened Wrappers
  import opened PackFormat

  // ----- one option -----

  predicate TakesArgument(k: KOption) {
    k.Kint? || k.Kuint? || k.Kchar? || k.Kstring? || k.Kzstr?
  }

  /** The bytes of one option after its alignment; the options that take no argument ignore `arg`. */
  function PackItem(d: Details, arg: Value): (r: Result<seq<Byte>>)
    requires d.kind.Kint? || d.kind.Kuint? || d.kind.Kstring? ==> 1 <= d.size <= MAXINTSIZE
  {
    match d.kind
    case Kint =>
      if !arg.Int? || !LuaInteger(arg.n) then Bad(BadArgument)
      else if !Fits(arg.n, d.size, true) then Bad(IntegerOverflow)
      else Ok(PackInt(arg.n, d.h.little, d.size, arg.n < 0))
    case Kuint =>
      if !arg.Int? || !LuaInteger(arg.n) then Bad(BadArgument)
      else if !Fits(arg.n, d.size, false) then Bad(UnsignedOverflow)
      else Ok(PackInt(arg.n, d.h.little, d.size, false))
    case Kchar =>
      if !arg.Str? then Bad(BadArgument)
      else if |arg.s| > d.size then Bad(StringTooLong)
      else Ok(arg.s + Fill(d.size - |arg.s|, 0))
    case Kstring =>
      if !arg.Str? || !LuaInteger(|arg.s|) then Bad(BadArgument)
      else if !Fits(|arg.s|, d.size, false) then Bad(LengthDoesNotFit)
      else Ok(PackInt(|arg.s|, d.h.little, d.size, false) + arg.s)
    case Kzstr =>
      if !arg.Str? then Bad(BadArgument)
      else if 0 in arg.s then Bad(ContainsZeros)
      else Ok(arg.s + [0])
    case Kpadding => Ok([0])
    case _ => Ok([])
  }

  /** What an argument comes back as: fixed-size strings have their padding. */
  function Echo(d: Details, arg: Value): Value {
    if d.kind.Kchar? && arg.Str? && |arg.s| <= d.size then Str(arg.s + Fill(d.size - |arg.s|, 0)) else arg
  }

  /** The first zero from `pos` on, or the end of the data. */
  function ZeroAt(data: seq<Byte>, pos: nat): (r: nat)
    requires pos <= |data|
    ensures pos <= r <= |data| && (forall i :: pos <= i < r ==> data[i] != 0) && (r < |data| ==> data[r] == 0)
    decreases |data| - pos
  {
    if pos == |data| || data[pos] == 0 then pos else ZeroAt(data, pos + 1)
  }

  /** A string of the length `n`, taken as unsigned. */
  function Counted(data: seq<Byte>, pos: nat, n: int): (r: Result<(seq<Value>, nat)>)
    requires pos <= |data|
    ensures r.Ok? ==> pos <= r.value.1 <= |data|
  {
    var len := if n < 0 then n + 0x1_0000_0000_0000_0000 else n;
    if len < 0 || len > |data| - pos then Bad(DataTooShort) else Ok(([Str(data[pos..pos + len])], pos + len))
  }

  /** The value of one option that stands at `pos`, if it has one, and where it ends. */
  function UnpackItem(d: Details, data: seq<Byte>, pos: nat): (r: Result<(seq<Value>, nat)>)
    requires pos + d.size <= |data|
    requires d.kind.Kint? || d.kind.Kuint? || d.kind.Kstring? ==> 1 <= d.size <= MAXINTSIZE
    ensures r.Ok? ==> pos <= r.value.1 <= |data|
  {
    match d.kind
    case Kint =>
      var n := UnpackInt(data[pos..pos + d.size], d.h.little, d.size, true);
      if n.Bad? then Bad(n.error) else Ok(([Int(n.value)], pos + d.size))
    case Kuint =>
      var n := UnpackInt(data[pos..pos + d.size], d.h.little, d.size, false);
      if n.Bad? then Bad(n.error) else Ok(([Int(n.value)], pos + d.size))
    case Kchar => Ok(([Str(data[pos..pos + d.size])], pos + d.size))
    case Kstring =>
      var n := UnpackInt(data[pos..pos + d.size], d.h.little, d.size, false);
      if n.Bad? then Bad(n.error) else Counted(data, pos + d.size, n.value)
    case Kzstr =>
      var z := ZeroAt(data, pos);
      if z == |data| then Bad(Unfinished) else Ok(([Str(data[pos..z])], z + 1))
    case _ => Ok(([], pos + d.size))
  }

  // ----- whole formats -----

  function Start(): Header {
    Header(NATIVE_LITTLE, 1)
  }

  /** `str_pack` from option `i` on, with `total` bytes already written. */
  function PackFrom(fmt: string, i: nat, h: Header, args: seq<Value>, total: nat): Result<seq<Byte>>
    requires i <= |fmt| && ValidHeader(h)
    decreases |fmt| - i
  {
    if At(fmt, i) == '\0' then Ok([])
    else
      var d := GetDetails(h, total, fmt, i);
      if d.Bad? then Bad(d.error)
      else if TakesArgument(d.value.kind) && args == [] then Bad(BadArgument)
      else
        var takes := TakesArgument(d.value.kind);
        var item := PackItem(d.value, if takes then args[0] else Int(0));
        if item.Bad? then Bad(item.error)
        else
          var rest := PackFrom(fmt, d.value.next, d.value.h, if takes then args[1..] else args,
                               total + d.value.ntoalign + |item.value|);
          if rest.Bad? then rest else Ok(Fill(d.value.ntoalign, 0) + item.value + rest.value)
  }

  /** The arguments that a format takes, as they come back. */
  function Echoes(fmt: string, i: nat, h: Header, args: seq<Value>, total: nat): seq<Value>
    requires i <= |fmt| && ValidHeader(h)
    decreases |fmt| - i
  {
    if At(fmt, i) == '\0' then []
    else
      var d := GetDetails(h, total, fmt, i);
      if d.Bad? || (TakesArgument(d.value.kind) && args == []) then []
      else
        var takes := TakesArgument(d.value.kind);
        var item := PackItem(d.value, if takes then args[0] else Int(0));
        if item.Bad? then []
        else
          (if takes then [Echo(d.value, args[0])] else []) +
          Echoes(fmt, d.value.next, d.value.h, if takes then args[1..] else args,
                 total + d.value.ntoalign + |item.value|)
  }

  /** `str_unpack` from option `i` on, at `pos` in the data. */
  function UnpackFrom(fmt: string, i: nat, h: Header, data: seq<Byte>, pos: nat): Result<(seq<Value>, nat)>
    requires i <= |fmt| && ValidHeader(h) && pos <= |data|
    decreases |fmt| - i
  {
    if At(fmt, i) == '\0' then Ok(([], pos))
    else
      var d := GetDetails(h, pos, fmt, i);
      if d.Bad? then Bad(d.error)
      else if d.value.ntoalign + d.value.size > |data| - pos then Bad(DataTooShort)
      else
        var item := UnpackItem(d.value, data, pos + d.value.ntoalign);
        if item.Bad? then Bad(item.error)
        else
          var rest := UnpackFrom(fmt, d.value.next, d.value.h, data, item.value.1);
          if rest.Bad? then rest else Ok((item.value.0 + rest.value.0, rest.value.1))
  }

  /** `str_packsize` from option `i` on. */
  function SizeFrom(fmt: string, i: nat, h: Header, total: nat): Result<nat>
    requires i <= |fmt| && ValidHeader(h)
    decreases |fmt| - i
  {
    if At(fmt, i) == '\0' then Ok(total)
    else
      var d := GetDetails(h, total, fmt, i);
      if d.Bad? then Bad(d.error)
      else if d.value.kind.Kstring? || d.value.kind.Kzstr? then Bad(VariableLength)
      else if total > INT_MAX - (d.value.size + d.value.ntoalign) then Bad(TooLarge)
      else SizeFrom(fmt, d.value.next, d.value.h, total + d.value.size + d.value.ntoalign)
  }

  // ----- what is written is read back -----

  /** `bytes` stand at `pos` in the data. */
  ghost predicate Stands(bytes: seq<Byte>, data: seq<Byte>, pos: nat) {
    pos + |bytes| <= |data| && data[pos..pos + |bytes|] == bytes
  }

  lemma IntegerBack(d: Details, arg: Value, data: seq<Byte>, pos: nat)
    requires (d.kind.Kint? || d.kind.Kuint?) && 1 <= d.size <= MAXINTSIZE
    requires PackItem(d, arg).Ok? && Stands(PackItem(d, arg).value, data, pos)
    ensures UnpackItem(d, data, pos) == Ok(([arg], pos + d.size))
  {
    hide Fits, PackInt, UnpackInt;
    UnpackPacked(arg.n, d.h.little, d.size, d.kind.Kint?);
  }

  lemma Slices(data: seq<Byte>, pos: nat, len: nat, k: nat)
    requires pos + len <= |data| && k <= len
    ensures data[pos..pos + k] == data[pos..pos + len][..k]
    ensures data[pos + k..pos + len] == data[pos..pos + len][k..]
  {
  }

  lemma StringBack(d: Details, arg: Value, data: seq<Byte>, pos: nat)
    requires d.kind.Kstring? && 1 <= d.size <= MAXINTSIZE
    requires PackItem(d, arg).Ok? && Stands(PackItem(d, arg).value, data, pos)
    ensures UnpackItem(d, data, pos) == Ok(([arg], pos + d.size + |arg.s|))
  {
    hide PackInt, UnpackInt;
    var all := PackItem(d, arg).value;
    var n := |arg.s|;
    assert all[..d.size] == PackInt(n, d.h.little, d.size, false) && all[d.size..] == arg.s;
    Slices(data, pos, |all|, d.size);
    UnpackPacked(n, d.h.little, d.size, false);
  }

  lemma ZstringBack(d: Details, arg: Value, data: seq<Byte>, pos: nat)
    requires d.kind.Kzstr? && d.size == 0
    requires PackItem(d, arg).Ok? && Stands(PackItem(d, arg).value, data, pos)
    ensures UnpackItem(d, data, pos) == Ok(([arg], pos + |arg.s| + 1))
  {
    var z := pos + |arg.s|;
    var all := data[pos..z + 1];
    assert data[z] == all[|arg.s|] == 0;
    assert forall k :: pos <= k < z ==> data[k] == all[k - pos] == arg.s[k - pos];
    ZeroIs(data, pos, z);
    assert data[pos..z] == all[..|arg.s|] == arg.s;
  }

  lemma OtherBack(d: Details, arg: Value, data: seq<Byte>, pos: nat)
    requires d.kind.Kchar? || d.kind.Kpadding? || d.kind.Kpaddalign? || d.kind.Knop?
    requires (d.kind.Kpaddalign? || d.kind.Knop? ==> d.size == 0) && (d.kind.Kpadding? ==> d.size == 1)
    requires PackItem(d, arg).Ok? && Stands(PackItem(d, arg).value, data, pos)
    ensures |PackItem(d, arg).value| == d.size
    ensures UnpackItem(d, data, pos) == Ok((if d.kind.Kchar? then [Echo(d, arg)] else [], pos + d.size))
  {
  }

  /** One option, wherever it stands in the data. */
  lemma ItemBack(d: Details, arg: Value, data: seq<Byte>, pos: nat)
    requires d.kind.Kint? || d.kind.Kuint? || d.kind.Kstring? ==> 1 <= d.size <= MAXINTSIZE
    requires d.kind.Kzstr? || d.kind.Kpaddalign? || d.kind.Knop? ==> d.size == 0
    requires d.kind.Kpadding? ==> d.size == 1
    requires PackItem(d, arg).Ok? && Stands(PackItem(d, arg).value, data, pos)
    ensures var bytes := PackItem(d, arg).value;
            && d.size <= |bytes|
            && UnpackItem(d, data, pos) == Ok((if TakesArgument(d.kind) then [Echo(d, arg)] else [], pos + |bytes|))
  {
    hide PackItem, UnpackItem, Stands;
    PackedLength(d, arg);
    if d.kind.Kint? || d.kind.Kuint? {
      IntegerBack(d, arg, data, pos);
    } else if d.kind.Kstring? {
      StringBack(d, arg, data, pos);
    } else if d.kind.Kzstr? {
      ZstringBack(d, arg, data, pos);
    } else {
      OtherBack(d, arg, data, pos);
    }
  }

  lemma PackedLength(d: Details, arg: Value)
    requires d.kind.Kint? || d.kind.Kuint? || d.kind.Kstring? ==> 1 <= d.size <= MAXINTSIZE
    requires PackItem(d, arg).Ok?
    ensures d.kind.Kint? || d.kind.Kuint? ==> |PackItem(d, arg).value| == d.size && Echo(d, arg) == arg
    ensures d.kind.Kstring? ==> arg.Str? && |PackItem(d, arg).value| == d.size + |arg.s| && Echo(d, arg) == arg
    ensures d.kind.Kzstr? ==> arg.Str? && |PackItem(d, arg).value| == |arg.s| + 1 && Echo(d, arg) == arg
  {
    hide PackInt, Fits;
  }

  lemma ZeroIs(data: seq<Byte>, pos: nat, z: nat)
    requires pos <= z < |data| && data[z] == 0 && forall k :: pos <= k < z ==> data[k] != 0
    ensures ZeroAt(data, pos) == z
  {
    var r := ZeroAt(data, pos);
    assert r >= z && r <= z;
  }

  lemma {:induction false} RoundTripFrom(fmt: string, i: nat, h: Header, args: seq<Value>, before: seq<Byte>, after: seq<Byte>)
    requires i <= |fmt| && ValidHeader(h) && PackFrom(fmt, i, h, args, |before|).Ok?
    ensures var bytes := PackFrom(fmt, i, h, args, |before|).value;
            UnpackFrom(fmt, i, h, before + bytes + after, |before|) ==
            Ok((Echoes(fmt, i, h, args, |before|), |before| + |bytes|))
    decreases |fmt| - i, 1
  {
    hide PackItem, UnpackItem, GetDetails, Echo;
    if At(fmt, i) != '\0' {
      RoundTripStep(fmt, i, h, args, before, after, PackFrom(fmt, i, h, args, |before|).value);
    }
  }

  lemma {:induction false} RoundTripStep(fmt: string, i: nat, h: Header, args: seq<Value>, before: seq<Byte>, after: seq<Byte>,
                                         bytes: seq<Byte>)
    requires i <= |fmt| && ValidHeader(h) && At(fmt, i) != '\0' && PackFrom(fmt, i, h, args, |before|) == Ok(bytes)
    ensures UnpackFrom(fmt, i, h, before + bytes + after, |before|) ==
            Ok((Echoes(fmt, i, h, args, |before|), |before| + |bytes|))
    decreases |fmt| - i, 0
  {
    hide PackItem, UnpackItem, GetDetails, Echo;
    var d := GetDetails(h, |before|, fmt, i).value;
    var takes := TakesArgument(d.kind);
    var arg := if takes then args[0] else Int(0);
    var args' := if takes then args[1..] else args;
    var item := PackItem(d, arg).value;
    var rest := PackFrom(fmt, d.next, d.h, args', |before| + d.ntoalign + |item|).value;
    assert bytes == Fill(d.ntoalign, 0) + item + rest;
    var echoes := Echoes(fmt, d.next, d.h, args', |before| + d.ntoalign + |item|);
    assert Echoes(fmt, i, h, args, |before|) == (if takes then [Echo(d, arg)] else []) + echoes;
    hide PackFrom, Echoes, UnpackFrom;
    var data := before + bytes + after;
    var pos := |before| + d.ntoalign;
    var pad := Fill(d.ntoalign, 0);
    Middle(before, pad, item, rest, after);
    ItemBack(d, arg, data, pos);
    var done := before + pad + item;
    RoundTripFrom(fmt, d.next, d.h, args', done, after);
    var back := (if takes then [Echo(d, arg)] else [], |done|);
    UnpackStep(fmt, i, h, data, |before|, d, back, UnpackFrom(fmt, d.next, d.h, data, |done|).value);
  }

  lemma Middle(before: seq<Byte>, pad: seq<Byte>, item: seq<Byte>, rest: seq<Byte>, after: seq<Byte>)
    ensures var data := before + (pad + item + rest) + after; var pos := |before| + |pad|;
            Stands(item, data, pos) && data == before + pad + item + rest + after
  {
  }

  lemma UnpackStep(fmt: string, i: nat, h: Header, data: seq<Byte>, pos: nat, d: Details, item: (seq<Value>, nat),
                   rest: (seq<Value>, nat))
    requires i < |fmt| && ValidHeader(h) && pos <= |data| && At(fmt, i) != '\0' && GetDetails(h, pos, fmt, i) == Ok(d)
    requires pos + d.ntoalign + d.size <= |data| && UnpackItem(d, data, pos + d.ntoalign) == Ok(item)
    requires UnpackFrom(fmt, d.next, d.h, data, item.1) == Ok(rest)
    ensures UnpackFrom(fmt, i, h, data, pos) == Ok((item.0 + rest.0, rest.1))
  {
    hide GetDetails, UnpackItem;
  }

  // ----- the arguments come back -----

  /** The options of a format that take an argument, as its text lists them; an option after `X` is only aligned to. */
  function ArgOptions(fmt: string, i: nat, h: Header): seq<FormatOption>
    requires i <= |fmt| && ValidHeader(h)
    decreases |fmt| - i
  {
    if At(fmt, i) == '\0' || GetOption(h, fmt, i).Bad? then []
    else
      var o := GetOption(h, fmt, i).value;
      if o.kind.Kpaddalign? then
        if At(fmt, o.next) == '\0' || GetOption(o.h, fmt, o.next).Bad? then []
        else ArgOptions(fmt, GetOption(o.h, fmt, o.next).value.next, GetOption(o.h, fmt, o.next).value.h)
      else (if TakesArgument(o.kind) then [o] else []) + ArgOptions(fmt, o.next, o.h)
  }

  /** What comes back for an argument: the argument, or for a string of fixed size that string with zeros up to the
      size. */
  ghost predicate BackAs(o: FormatOption, arg: Value, back: Value) {
    if o.kind.Kchar? then
      && arg.Str? && back.Str? && arg.s <= back.s && |back.s| == o.size
      && forall j :: |arg.s| <= j < |back.s| ==> back.s[j] == 0
    else back == arg
  }

  /** One value comes back for each of the options, in their order. */
  ghost predicate AllBack(os: seq<FormatOption>, args: seq<Value>, back: seq<Value>) {
    |back| == |os| <= |args| && forall k :: 0 <= k < |os| ==> BackAs(os[k], args[k], back[k])
  }

  /** `getdetails` gives the option it read, or for `X` goes past the option after it. */
  lemma DetailsOption(h: Header, total: nat, fmt: string, i: nat)
    requires i < |fmt| && ValidHeader(h) && At(fmt, i) != '\0' && GetDetails(h, total, fmt, i).Ok?
    ensures GetOption(h, fmt, i).Ok?
    ensures var d, o := GetDetails(h, total, fmt, i).value, GetOption(h, fmt, i).value;
            if o.kind.Kpaddalign? then d.kind.Kpaddalign? && !TakesArgument(d.kind) && ArgOptions(fmt, i, h) == ArgOptions(fmt, d.next, d.h)
            else
              && d.kind == o.kind && d.size == o.size
              && ArgOptions(fmt, i, h) == (if TakesArgument(d.kind) then [o] else []) + ArgOptions(fmt, d.next, d.h)
  {
    hide GetOption, Padding;
  }

  lemma EchoIs(d: Details, o: FormatOption, arg: Value)
    requires d.kind.Kint? || d.kind.Kuint? || d.kind.Kstring? ==> 1 <= d.size <= MAXINTSIZE
    requires PackItem(d, arg).Ok? && TakesArgument(d.kind) && o.kind == d.kind && o.size == d.size
    ensures BackAs(o, arg, Echo(d, arg))
  {
    hide PackInt, Fits;
  }

  lemma {:induction false} EchoesAre(fmt: string, i: nat, h: Header, args: seq<Value>, total: nat)
    requires i <= |fmt| && ValidHeader(h) && PackFrom(fmt, i, h, args, total).Ok?
    ensures AllBack(ArgOptions(fmt, i, h), args, Echoes(fmt, i, h, args, total))
    decreases |fmt| - i
  {
    hide PackItem, GetDetails, GetOption, Echo, BackAs, TakesArgument, ValidHeader;
    if At(fmt, i) != '\0' {
      var d := GetDetails(h, total, fmt, i).value;
      var takes := TakesArgument(d.kind);
      var item := PackItem(d, if takes then args[0] else Int(0));
      var args' := if takes then args[1..] else args;
      var total' := total + d.ntoalign + |item.value|;
      EchoesAre(fmt, d.next, d.h, args', total');
      DetailsOption(h, total, fmt, i);
      hide ArgOptions;
      if takes {
        EchoIs(d, GetOption(h, fmt, i).value, args[0]);
        assert args == [args[0]] + args';
      }
    }
  }

  /** For every format without floats and every accepted argument list, unpacking from the first position gives a value
      back for each option that takes an argument, the argument itself or a fixed-size string with its zero padding, and
      ends where the data ends. */
  lemma RoundTrip(fmt: string, args: seq<Value>, bytes: seq<Byte>)
    requires PackFrom(fmt, 0, Start(), args, 0) == Ok(bytes)
    ensures var r := UnpackFrom(fmt, 0, Start(), bytes, 0);
            r.Ok? && AllBack(ArgOptions(fmt, 0, Start()), args, r.value.0) && r.value.1 == |bytes|
  {
    hide PackItem, UnpackItem, GetDetails, PackFrom, UnpackFrom, Echoes, ArgOptions, AllBack;
    RoundTripFrom(fmt, 0, Start(), args, [], []);
    assert [] + bytes + [] == bytes;
    EchoesAre(fmt, 0, Start(), args, 0);
  }

  /** The number of bytes of a fixed-size option. */
  lemma ItemSize(d: Details, arg: Value)
    requires d.kind.Kint? || d.kind.Kuint? || d.kind.Kstring? ==> 1 <= d.size <= MAXINTSIZE
    requires d.kind.Kpaddalign? || d.kind.Knop? ==> d.size == 0
    requires d.kind.Kpadding? ==> d.size == 1
    requires PackItem(d, arg).Ok? && !d.kind.Kstring? && !d.kind.Kzstr?
    ensures |PackItem(d, arg).value| == d.size
  {
  }

  /** `str_packsize` gives the length of the packed data; and when it gives an error for a format that packs, the format
      is of variable length or the data too long. */
  lemma {:induction false} SizeIsLength(fmt: string, i: nat, h: Header, args: seq<Value>, total: nat)
    requires i <= |fmt| && ValidHeader(h) && PackFrom(fmt, i, h, args, total).Ok?
    ensures var n := total + |PackFrom(fmt, i, h, args, total).value|; var size := SizeFrom(fmt, i, h, total);
            if size.Ok? then size.value == n && (total <= 0x7FFF_FFFF ==> n <= 0x7FFF_FFFF)
            else size.error == VariableLength || (size.error == TooLarge && n > 0x7FFF_FFFF)
    decreases |fmt| - i
  {
    hide PackItem, GetDetails;
    if At(fmt, i) != '\0' {
      var d := GetDetails(h, total, fmt, i).value;
      var takes := TakesArgument(d.kind);
      var arg := if takes then args[0] else Int(0);
      if !d.kind.Kstring? && !d.kind.Kzstr? {
        ItemSize(d, arg);
        SizeIsLength(fmt, d.next, d.h, if takes then args[1..] else args, total + d.ntoalign + |PackItem(d, arg).value|);
      }
    }
  }
}
