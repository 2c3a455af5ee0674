/** What the letters of a format mean: the kind and size of every option, what they do to the header, and which byte of
    an integer goes where. */
module PackOptions {
  import opened Wrappers
  import opened PackFormat
  import opened Pack

  // ----- numbers in a format -----

  const DIGITS := "0123456789"

  /** A number as it is written. */
  function Dec(n: nat): (t: string)
    ensures |t| > 0
  {
    if n < 10 then [DIGITS[n]] else Dec(n / 10) + [DIGITS[n % 10]]
  }

  /** `t` stands at `i`. */
  predicate Here(fmt: string, i: nat, t: string) {
    i + |t| <= |fmt| && fmt[i..i + |t|] == t
  }

  lemma HereAt(fmt: string, i: nat, t: string, k: nat)
    requires Here(fmt, i, t) && k < |t|
    ensures i + k < |fmt| && fmt[i + k] == t[k]
  {
    assert fmt[i..i + |t|][k] == fmt[i + k];
  }

  lemma DigitsAre(d: nat)
    requires d < 10
    ensures Digit(DIGITS[d]) && DigitValue(DIGITS[d]) == d
  {
  }

  /** Having read the leading digits of a number, the loop goes on with its last digit. */
  lemma {:induction false} NumeralReads(fmt: string, i: nat, n: nat)
    requires Here(fmt, i, Dec(n)) && n <= 2147483639
    ensures Numeral(fmt, i, 0) == Numeral(fmt, i + |Dec(n)|, n)
    decreases n
  {
    hide Numeral, Digit;
    var t := Dec(n);
    HereAt(fmt, i, t, |t| - 1);
    NumeralStep(fmt, i + |t| - 1, n / 10, n % 10);
    if n >= 10 {
      assert Dec(n / 10) == t[..|t| - 1] == fmt[i..i + |t|][..|t| - 1] == fmt[i..i + |t| - 1];
      NumeralReads(fmt, i, n / 10);
    }
    assert n == n / 10 * 10 + n % 10;
  }

  lemma NumeralStep(fmt: string, i: nat, a: nat, d: nat)
    requires i < |fmt| && d < 10 && fmt[i] == DIGITS[d] && a <= 214748363
    ensures Numeral(fmt, i, a) == Numeral(fmt, i + 1, a * 10 + d)
  {
    DigitsAre(d);
  }

  /** `getnum`: the number that stands there, or the default. */
  lemma NumberRead(fmt: string, i: nat, n: nat, df: int)
    ensures i >= |fmt| || !('0' <= fmt[i] <= '9') ==> GetNum(fmt, i, df) == (df, i)
    ensures Here(fmt, i, Dec(n)) && n <= 2147483639 && !Digit(At(fmt, i + |Dec(n)|)) ==> GetNum(fmt, i, df) == (n, i + |Dec(n)|)
  {
    if Here(fmt, i, Dec(n)) && n <= 2147483639 && !Digit(At(fmt, i + |Dec(n)|)) {
      NumeralReads(fmt, i, n);
      FirstDigit(n);
      HereAt(fmt, i, Dec(n), 0);
    }
  }

  lemma {:induction false} FirstDigit(n: nat)
    ensures Digit(Dec(n)[0])
    decreases n
  {
    if n >= 10 { FirstDigit(n / 10); }
  }

  // ----- the letters -----

  /** The letters with a fixed size, with it. */
  function FixedOption(c: char): Option<(KOption, nat)> {
    match c
    case 'b' => Some((Kint, 1)) case 'B' => Some((Kuint, 1))
    case 'h' => Some((Kint, 2)) case 'H' => Some((Kuint, 2))
    case 'l' => Some((Kint, 8)) case 'L' => Some((Kuint, 8))
    case 'j' => Some((Kint, 8)) case 'J' => Some((Kuint, 8))
    case 'T' => Some((Kuint, 8))
    case 'z' => Some((Kzstr, 0))
    case 'x' => Some((Kpadding, 1))
    case 'X' => Some((Kpaddalign, 0))
    case ' ' => Some((Knop, 0))
    case _ => None
  }

  /** The letters with a size after them, with their default; a default of 0 is none. */
  function SizedOption(c: char): Option<(KOption, nat)> {
    match c
    case 'i' => Some((Kint, 4)) case 'I' => Some((Kuint, 4))
    case 's' => Some((Kstring, 8))
    case 'c' => Some((Kchar, 0))
    case '!' => Some((Knop, 8))
    case _ => None
  }

  /** Letters without a number: their kind and size, the header as it was. */
  lemma FixedRead(h: Header, fmt: string, i: nat)
    requires i < |fmt| && ValidHeader(h) && FixedOption(fmt[i]).Some?
    ensures var (kind, size) := FixedOption(fmt[i]).value; GetOption(h, fmt, i) == Ok(FormatOption(h, kind, size, i + 1))
  {
    hide GetNum, GetNumLimit;
  }

  /** The letters that set the order of bytes: `<` the lowest first, `>` the highest first, `=` that of the machine,
      which is the lowest first. */
  lemma OrderRead(h: Header, fmt: string, i: nat)
    requires i < |fmt| && ValidHeader(h)
    ensures fmt[i] == '<' ==> GetOption(h, fmt, i) == Ok(FormatOption(Header(true, h.maxalign), Knop, 0, i + 1))
    ensures fmt[i] == '>' ==> GetOption(h, fmt, i) == Ok(FormatOption(Header(false, h.maxalign), Knop, 0, i + 1))
    ensures fmt[i] == '=' ==> GetOption(h, fmt, i) == Ok(FormatOption(Header(true, h.maxalign), Knop, 0, i + 1))
    ensures Start() == Header(true, 1)
  {
    hide GetNum, GetNumLimit;
  }

  /** Letters with a number: its text, or the default. Sizes of integers and alignments are 1 to 16. */
  lemma SizedRead(h: Header, fmt: string, i: nat, n: nat, written: bool)
    requires i < |fmt| && ValidHeader(h) && SizedOption(fmt[i]).Some?
    requires if written then Here(fmt, i + 1, Dec(n)) && n <= 2147483639 else n == SizedOption(fmt[i]).value.1
    requires var next := if written then i + 1 + |Dec(n)| else i + 1; next < |fmt| ==> !('0' <= fmt[next] <= '9')
    ensures var kind := SizedOption(fmt[i]).value.0; var next := if written then i + 1 + |Dec(n)| else i + 1;
            GetOption(h, fmt, i) ==
            if fmt[i] == 'c' then (if written then Ok(FormatOption(h, kind, n, next)) else Bad(MissingSize))
            else if n < 1 || n > 16 then Bad(SizeLimits)
            else if fmt[i] == '!' then Ok(FormatOption(Header(h.little, n), kind, 0, next))
            else Ok(FormatOption(h, kind, n, next))
  {
    hide GetNum, Here;
    var df: int := if fmt[i] == 'c' then -1 else SizedOption(fmt[i]).value.1;
    NumberRead(fmt, i + 1, n, df);
  }

  /** Every other letter is an error. */
  lemma OtherRead(h: Header, fmt: string, i: nat)
    requires i < |fmt| && ValidHeader(h) && FixedOption(fmt[i]).None? && SizedOption(fmt[i]).None?
    requires fmt[i] != '<' && fmt[i] != '>' && fmt[i] != '='
    ensures GetOption(h, fmt, i) == Bad(if fmt[i] == 'f' || fmt[i] == 'd' || fmt[i] == 'n' then FloatOption else InvalidOption)
  {
    hide GetNum, GetNumLimit;
  }

  // ----- alignment -----

  /** Alignment is the size, at most the maximum in force, and must be a power of two; `c` and what has no size are not
      aligned. */
  lemma AlignmentRead(h: Header, total: nat, fmt: string, i: nat)
    requires i < |fmt| && ValidHeader(h) && GetOption(h, fmt, i).Ok? && !GetOption(h, fmt, i).value.kind.Kpaddalign?
    ensures var o := GetOption(h, fmt, i).value; var d := GetDetails(h, total, fmt, i);
            var a := if o.size > o.h.maxalign then o.h.maxalign else o.size;
            if o.kind.Kchar? || o.size <= 1 then d == Ok(Details(o.h, o.kind, o.size, 0, o.next))
            else if a !in {1, 2, 4, 8, 16} then d == Bad(NotPowerOf2)
            else
              && d.Ok? && d.value == Details(o.h, o.kind, o.size, d.value.ntoalign, o.next)
              && d.value.ntoalign < a && (total + d.value.ntoalign) % a == 0
  {
    var o := GetOption(h, fmt, i).value;
    hide GetOption;
    if !o.kind.Kchar? && o.size > 1 && Padding(o.h, o.size, total, o.kind).Ok? { PaddingAligns(o.h, o.size, total, o.kind); }
  }

  /** `X` takes no space, and aligns as the option after it would, which must have a size and not be `c`. */
  lemma AlignOnlyRead(h: Header, total: nat, fmt: string, i: nat)
    requires i < |fmt| && ValidHeader(h) && fmt[i] == 'X'
    ensures var d := GetDetails(h, total, fmt, i);
            if i + 1 >= |fmt| || fmt[i + 1] == '\0' then d == Bad(InvalidNext)
            else
              var x := GetOption(h, fmt, i + 1);
              if x.Bad? then d == Bad(x.error)
              else if x.value.kind.Kchar? || x.value.size == 0 then d == Bad(InvalidNext)
              else
                var a := if x.value.size > x.value.h.maxalign then x.value.h.maxalign else x.value.size;
                if x.value.size > 1 && a !in {1, 2, 4, 8, 16} then d == Bad(NotPowerOf2)
                else
                  && d.Ok? && d.value == Details(x.value.h, Kpaddalign, 0, d.value.ntoalign, x.value.next)
                  && d.value.ntoalign < a && (total + d.value.ntoalign) % a == 0
  {
    FixedRead(h, fmt, i);
    hide GetOption;
    if i + 1 < |fmt| && fmt[i + 1] != '\0' && GetOption(h, fmt, i + 1).Ok? {
      var x := GetOption(h, fmt, i + 1).value;
      if x.size > 0 && Padding(x.h, x.size, total, Kpaddalign).Ok? { PaddingAligns(x.h, x.size, total, Kpaddalign); }
    }
  }

  // ----- bytes -----

  /** Byte `k` of a number in two's complement, of any length: what is left of it, rounded down, when it has been divided
      by 256 `k` times. */
  function ByteOf(n: int, k: nat): (b: int)
    ensures 0 <= b < 256
    decreases k
  {
    if k == 0 then n % 256 else ByteOf(n / 256, k - 1)
  }

  lemma {:induction false} DigitAt(u: nat, size: nat, k: nat)
    requires k < size
    ensures Digits(u, size)[k] == ByteOf(u, k)
    decreases k
  {
    if k > 0 { DigitAt(u / 256, size - 1, k - 1); }
  }

  /** Higher bytes do not show in lower ones. */
  lemma {:induction false} BytesBelow(n: int, j: nat, k: nat)
    requires k < j
    ensures ByteOf(n + Shifted(1, j), k) == ByteOf(n, k)
    decreases k
  {
    var m := Shifted(1, j - 1);
    assert (n + 256 * m) % 256 == n % 256 && (n + 256 * m) / 256 == n / 256 + m;
    if k > 0 { BytesBelow(n / 256, j - 1, k - 1); }
  }

  /** Beyond the bytes that a number needs come zeros, or for a negative one 255. */
  lemma {:induction false} BytesAbove(n: int, j: nat, k: nat)
    requires -(Shifted(1, j) as int) <= n < Shifted(1, j) && j <= k
    ensures ByteOf(n, k) == if n < 0 then 255 else 0
    decreases k
  {
    if k > 0 { BytesAbove(n / 256, if j > 0 then j - 1 else 0, k - 1); }
  }

  lemma WordSize()
    ensures Shifted(1, 8) == 0x1_0000_0000_0000_0000
  {
    assert Shifted(1, 7) == 0x100_0000_0000_0000 by {
      assert Shifted(1, 6) == 0x1_0000_0000_0000;
      assert Shifted(1, 4) == 0x1_0000_0000;
    }
  }

  /** Where byte `k` of `size` stands. */
  function PlaceOf(k: nat, size: nat, little: bool): int {
    if little then k else size - 1 - k
  }

  /** The number whose bytes are written: unsigned options write the 64-bit form. */
  function Form(n: int, signed: bool): int {
    if n < 0 && !signed then n + 0x1_0000_0000_0000_0000 else n
  }

  lemma PackedByte(n: int, little: bool, size: nat, signed: bool, k: nat)
    requires LuaInteger(n) && 1 <= size <= 16 && k < size
    ensures PackInt(n, little, size, signed && n < 0)[PlaceOf(k, size, little)] == ByteOf(Form(n, signed), k)
  {
    var u := if n < 0 then n + 0x1_0000_0000_0000_0000 else n;
    var low := Digits(u, if size < 8 then size else 8);
    hide Digits, ByteOf, Shifted;
    WordSize();
    if k < 8 {
      DigitAt(u, |low|, k);
      if n < 0 { BytesBelow(n, 8, k); }
    } else {
      BytesAbove(n, 8, k);
      BytesAbove(u, 8, k);
    }
  }

  // ----- an option after any other format -----

  lemma {:induction false} NumeralPrefix(pre: string, post: string, i: nat, a: nat)
    requires i <= |pre| && (post != "" ==> !Digit(post[0]))
    ensures Numeral(pre + post, i, a) == Numeral(pre, i, a)
    decreases |pre| - i
  {
    if i < |pre| && Digit(pre[i]) && a <= (INT_MAX - 9) / 10 {
      NumeralPrefix(pre, post, i + 1, a * 10 + DigitValue(pre[i]));
    }
  }

  lemma OptionPrefix(h: Header, pre: string, post: string, i: nat)
    requires i < |pre| && ValidHeader(h) && (post != "" ==> !Digit(post[0]))
    ensures GetOption(h, pre + post, i) == GetOption(h, pre, i)
  {
    hide GetNum, GetNumLimit, ValidHeader;
    assert (pre + post)[i] == pre[i];
    NumberPrefix(pre, post, i + 1, -1);
    NumberPrefix(pre, post, i + 1, 4);
    NumberPrefix(pre, post, i + 1, 8);
  }

  lemma NumberPrefix(pre: string, post: string, i: nat, df: int)
    requires i <= |pre| && (post != "" ==> !Digit(post[0]))
    ensures GetNum(pre + post, i, df) == GetNum(pre, i, df) && GetNumLimit(pre + post, i, df) == GetNumLimit(pre, i, df)
  {
    NumeralPrefix(pre, post, i, 0);
  }

  /** What an option is does not depend on what comes after it, nor, but for the padding, on what came before. */
  lemma DetailsPrefix(h: Header, total: nat, pre: string, post: string, i: nat)
    requires i < |pre| && ValidHeader(h) && (post != "" ==> !Digit(post[0])) && GetDetails(h, total, pre, i).Ok?
    ensures GetDetails(h, total, pre + post, i) == GetDetails(h, total, pre, i)
  {
    hide GetOption, Padding, ValidHeader;
    OptionPrefix(h, pre, post, i);
    var o := GetOption(h, pre, i).value;
    if o.kind.Kpaddalign? && o.next < |pre| { OptionPrefix(o.h, pre, post, o.next); }
  }

  /** The header that the options of a format leave. */
  function HeaderAfter(fmt: string, i: nat, h: Header, total: nat, args: seq<Value>): (r: Header)
    requires i <= |fmt| && ValidHeader(h)
    ensures ValidHeader(r)
    decreases |fmt| - i
  {
    if At(fmt, i) == '\0' || GetDetails(h, total, fmt, i).Bad? then h
    else
      var d := GetDetails(h, total, fmt, i).value;
      var takes := TakesArgument(d.kind);
      if takes && args == [] then d.h
      else
        var item := PackItem(d, if takes then args[0] else Int(0));
        if item.Bad? then d.h
        else HeaderAfter(fmt, d.next, d.h, total + d.ntoalign + |item.value|, if takes then args[1..] else args)
  }

  function Joined(b: seq<Byte>, rest: Result<seq<Byte>>): Result<seq<Byte>> {
    if rest.Bad? then rest else Ok(b + rest.value)
  }

  /** A format that packs, and takes exactly its arguments, can be put in front of another one. */
  lemma {:induction false} PackAppend(pre: string, post: string, i: nat, h: Header, args: seq<Value>, more: seq<Value>, total: nat)
    requires i <= |pre| && ValidHeader(h) && '\0' !in pre && (post != "" ==> !Digit(post[0]))
    requires PackFrom(pre, i, h, args, total).Ok? && |ArgOptions(pre, i, h)| == |args|
    ensures var b := PackFrom(pre, i, h, args, total).value;
            PackFrom(pre + post, i, h, args + more, total) ==
            Joined(b, PackFrom(pre + post, |pre|, HeaderAfter(pre, i, h, total, args), more, total + |b|))
    decreases |pre| - i
  {
    hide GetDetails, GetOption, PackItem, TakesArgument, ValidHeader, ArgOptions, PackFrom, HeaderAfter, Joined;
    if i == |pre| {
      NothingLeft(pre, h, args, total);
      assert args + more == more;
    } else {
      assert pre[i] in pre && (pre + post)[i] == pre[i];
      PackStep(pre, i, h, args, total);
      var d := GetDetails(h, total, pre, i).value;
      var takes := TakesArgument(d.kind);
      var args' := if takes then args[1..] else args;
      var item := PackItem(d, if takes then args[0] else Int(0)).value;
      DetailsPrefix(h, total, pre, post, i);
      DetailsOption(h, total, pre, i);
      if takes { assert (args + more)[1..] == args[1..] + more; }
      PackAgain(pre + post, i, h, args + more, total);
      PackAppend(pre, post, d.next, d.h, args', more, total + d.ntoalign + |item|);
      AppendStep(Fill(d.ntoalign, 0) + item, PackFrom(pre, d.next, d.h, args', total + d.ntoalign + |item|).value);
    }
  }

  /** A format that packs, one option on. */
  lemma PackStep(fmt: string, i: nat, h: Header, args: seq<Value>, total: nat)
    requires i < |fmt| && fmt[i] != '\0' && ValidHeader(h) && PackFrom(fmt, i, h, args, total).Ok?
    ensures GetDetails(h, total, fmt, i).Ok?
    ensures var d := GetDetails(h, total, fmt, i).value; var takes := TakesArgument(d.kind);
            && (takes ==> args != [])
            && var item := PackItem(d, if takes then args[0] else Int(0)); var args' := if takes then args[1..] else args;
               && item.Ok? && PackFrom(fmt, d.next, d.h, args', total + d.ntoalign + |item.value|).Ok?
               && PackFrom(fmt, i, h, args, total) ==
                  Ok(Fill(d.ntoalign, 0) + item.value + PackFrom(fmt, d.next, d.h, args', total + d.ntoalign + |item.value|).value)
               && HeaderAfter(fmt, i, h, total, args) ==
                  HeaderAfter(fmt, d.next, d.h, total + d.ntoalign + |item.value|, args')
  {
    hide GetDetails, PackItem, TakesArgument, ValidHeader;
  }

  /** The same for a format of which only this option is known to pack. */
  lemma PackAgain(fmt: string, i: nat, h: Header, args: seq<Value>, total: nat)
    requires i < |fmt| && fmt[i] != '\0' && ValidHeader(h) && GetDetails(h, total, fmt, i).Ok?
    requires var d := GetDetails(h, total, fmt, i).value; var takes := TakesArgument(d.kind);
             (takes ==> args != []) && PackItem(d, if takes then args[0] else Int(0)).Ok?
    ensures var d := GetDetails(h, total, fmt, i).value; var takes := TakesArgument(d.kind);
            var item := PackItem(d, if takes then args[0] else Int(0)).value;
            PackFrom(fmt, i, h, args, total) ==
            Joined(Fill(d.ntoalign, 0) + item,
                   PackFrom(fmt, d.next, d.h, if takes then args[1..] else args, total + d.ntoalign + |item|))
  {
    hide GetDetails, PackItem, TakesArgument, ValidHeader;
  }

  lemma NothingLeft(pre: string, h: Header, args: seq<Value>, total: nat)
    requires ValidHeader(h)
    ensures ArgOptions(pre, |pre|, h) == [] && PackFrom(pre, |pre|, h, args, total) == Ok([])
    ensures HeaderAfter(pre, |pre|, h, total, args) == h
    ensures forall r: Result<seq<Byte>> :: Joined([], r) == r
  {
    forall r: Result<seq<Byte>> ensures Joined([], r) == r {
      if r.Ok? { assert [] + r.value == r.value; }
    }
  }

  lemma AppendStep(a: seq<Byte>, b: seq<Byte>)
    ensures forall r: Result<seq<Byte>> :: Joined(a, Joined(b, r)) == Joined(a + b, r)
  {
    forall r: Result<seq<Byte>> ensures Joined(a, Joined(b, r)) == Joined(a + b, r) {
      if r.Ok? { assert a + (b + r.value) == a + b + r.value; }
    }
  }

  // ----- integers in the order asked for -----

  /** The texts of the integer options, and what they say. */
  datatype IntegerText = Letter(c: char) | Default(signed: bool) | Written(signed: bool, n: nat)

  function TextOf(t: IntegerText): (s: string)
    ensures |s| > 0
  {
    match t
    case Letter(c) => [c]
    case Default(signed) => if signed then "i" else "I"
    case Written(signed, n) => (if signed then "i" else "I") + Dec(n)
  }

  predicate IsInteger(t: IntegerText) {
    match t
    case Letter(c) => c in "bBhHlLjJT"
    case Default(_) => true
    case Written(_, n) => 1 <= n <= 16
  }

  function Signed(t: IntegerText): bool {
    match t
    case Letter(c) => c in "bhlj"
    case Default(signed) => signed
    case Written(signed, _) => signed
  }

  function SizeOf(t: IntegerText): nat {
    match t
    case Letter(c) => if c in "bB" then 1 else if c in "hH" then 2 else 8
    case Default(_) => 4
    case Written(_, n) => n
  }

  lemma IntegerRead(h: Header, fmt: string, i: nat, t: IntegerText)
    requires ValidHeader(h) && IsInteger(t) && Here(fmt, i, TextOf(t)) && i + |TextOf(t)| == |fmt|
    ensures i < |fmt| && fmt[i] != '\0'
    ensures GetOption(h, fmt, i) == Ok(FormatOption(h, if Signed(t) then Kint else Kuint, SizeOf(t), |fmt|))
  {
    HereAt(fmt, i, TextOf(t), 0);
    match t
    case Letter(c) =>
      hide GetOption;
      LetterIs(c);
      FixedRead(h, fmt, i);
    case Default(_) =>
      hide GetOption;
      SizedRead(h, fmt, i, 4, false);
    case Written(signed, n) =>
      hide GetOption;
      var head := if signed then "i" else "I";
      assert fmt[i + 1..i + 1 + |Dec(n)|] == fmt[i..i + |TextOf(t)|][1..] == Dec(n);
      SizedRead(h, fmt, i, n, true);
  }

  lemma LetterIs(c: char)
    requires c in "bBhHlLjJT"
    ensures FixedOption(c) == Some((if c in "bhlj" then Kint else Kuint, if c in "bB" then 1 else if c in "hH" then 2 else 8))
  {
  }

  /** The bytes of `n` at the end of `b`: byte `k` of the number is the `k`th of them, or for the other order the
      `k`th from the end. */
  ghost predicate EndsWithNumber(b: seq<Byte>, n: int, size: nat, little: bool) {
    size <= |b| && forall k :: 0 <= k < size ==> b[|b| - size + PlaceOf(k, size, little)] == ByteOf(n, k)
  }

  /** One integer at the end of a format. */
  lemma IntegerPacked(fmt: string, i: nat, h: Header, t: IntegerText, n: int, total: nat)
    requires ValidHeader(h) && IsInteger(t) && Here(fmt, i, TextOf(t)) && i + |TextOf(t)| == |fmt|
    requires PackFrom(fmt, i, h, [Int(n)], total).Ok?
    ensures EndsWithNumber(PackFrom(fmt, i, h, [Int(n)], total).value, Form(n, Signed(t)), SizeOf(t), h.little)
    ensures LuaInteger(n)
  {
    IntegerRead(h, fmt, i, t);
    hide GetOption, Form, ByteOf, PackInt, Here, TextOf, Signed, SizeOf, Fits, EndsWithNumber;
    var d := GetDetails(h, total, fmt, i).value;
    assert PackFrom(fmt, |fmt|, h, [], total + d.ntoalign + d.size) == Ok([]);
    var item := PackItem(d, Int(n)).value;
    var b := PackFrom(fmt, i, h, [Int(n)], total).value;
    assert b == Fill(d.ntoalign, 0) + item;
    hide PackFrom, PackItem, GetDetails;
    ItemBytes(n, h.little, d.size, Signed(t));
    EndsAfter(Fill(d.ntoalign, 0), item, Form(n, Signed(t)), SizeOf(t), h.little);
  }

  lemma ItemBytes(n: int, little: bool, size: nat, signed: bool)
    requires LuaInteger(n) && 1 <= size <= 16
    ensures EndsWithNumber(PackInt(n, little, size, signed && n < 0), Form(n, signed), size, little)
  {
    hide PackInt, ByteOf, Form;
    forall k | 0 <= k < size
      ensures PackInt(n, little, size, signed && n < 0)[PlaceOf(k, size, little)] == ByteOf(Form(n, signed), k)
    {
      PackedByte(n, little, size, signed, k);
    }
  }

  /** After any format that takes its arguments, the bytes of an integer stand in the order that the `<` or `>` before it
      asks for. */
  lemma OrderedBytes(pre: string, args: seq<Value>, order: char, t: IntegerText, n: int)
    requires '\0' !in pre && IsInteger(t) && (order == '<' || order == '>')
    requires PackFrom(pre, 0, Start(), args, 0).Ok? && |ArgOptions(pre, 0, Start())| == |args|
    requires PackFrom(pre + ([order] + TextOf(t)), 0, Start(), args + [Int(n)], 0).Ok?
    ensures var b := PackFrom(pre + ([order] + TextOf(t)), 0, Start(), args + [Int(n)], 0).value;
            EndsWithNumber(b, Form(n, Signed(t)), SizeOf(t), order == '<')
  {
    hide PackFrom, ArgOptions, HeaderAfter, EndsWithNumber, TextOf, Form, Signed, SizeOf, IsInteger, Start, Here, Digit;
    var post := [order] + TextOf(t);
    var fmt := pre + post;
    PostIs(pre, order, TextOf(t));
    var b0 := PackFrom(pre, 0, Start(), args, 0).value;
    PackAppend(pre, post, 0, Start(), args, [Int(n)], 0);
    AfterOrder(fmt, |pre|, HeaderAfter(pre, 0, Start(), 0, args), t, n, |b0|, b0);
  }

  lemma PostIs(pre: string, order: char, t: string)
    requires order == '<' || order == '>'
    ensures var post := [order] + t; var fmt := pre + post;
            && fmt[|pre|] == order && Here(fmt, |pre| + 1, t) && |pre| + 1 + |t| == |fmt| && !Digit(post[0])
    ensures ValidHeader(Start())
  {
    var fmt := pre + ([order] + t);
    assert fmt[|pre| + 1..|pre| + 1 + |t|] == t;
  }

  /** The order and the integer, wherever they stand. */
  lemma AfterOrder(fmt: string, i: nat, h: Header, t: IntegerText, n: int, total: nat, b0: seq<Byte>)
    requires i < |fmt| && ValidHeader(h) && (fmt[i] == '<' || fmt[i] == '>')
    requires IsInteger(t) && Here(fmt, i + 1, TextOf(t)) && i + 1 + |TextOf(t)| == |fmt|
    requires PackFrom(fmt, i, h, [Int(n)], total).Ok?
    ensures EndsWithNumber(b0 + PackFrom(fmt, i, h, [Int(n)], total).value, Form(n, Signed(t)), SizeOf(t), fmt[i] == '<')
  {
    hide PackFrom, EndsWithNumber, TextOf, Form, Signed, SizeOf, IsInteger, Here;
    var h' := Header(fmt[i] == '<', h.maxalign);
    OrderStep(fmt, i, h, [Int(n)], total);
    IntegerPacked(fmt, i + 1, h', t, n, total);
    EndsAfter(b0, PackFrom(fmt, i + 1, h', [Int(n)], total).value, Form(n, Signed(t)), SizeOf(t), fmt[i] == '<');
  }

  lemma EndsAfter(a: seq<Byte>, b: seq<Byte>, n: int, size: nat, little: bool)
    requires EndsWithNumber(b, n, size, little)
    ensures EndsWithNumber(a + b, n, size, little)
  {
    hide ByteOf;
    forall k | 0 <= k < size
      ensures (a + b)[|a + b| - size + PlaceOf(k, size, little)] == ByteOf(n, k)
    {
      assert (a + b)[|a + b| - size + PlaceOf(k, size, little)] == b[|b| - size + PlaceOf(k, size, little)];
    }
  }

  lemma OrderDetails(h: Header, total: nat, fmt: string, i: nat)
    requires i < |fmt| && ValidHeader(h) && (fmt[i] == '<' || fmt[i] == '>')
    ensures GetDetails(h, total, fmt, i) == Ok(Details(Header(fmt[i] == '<', h.maxalign), Knop, 0, 0, i + 1))
  {
    hide GetOption;
    OrderRead(h, fmt, i);
  }

  lemma NothingDone(d: Details, arg: Value, data: seq<Byte>, pos: nat)
    requires d.kind.Knop? && d.size == 0 && pos <= |data|
    ensures PackItem(d, arg) == Ok([]) && UnpackItem(d, data, pos) == Ok(([], pos)) && !TakesArgument(d.kind)
  {
  }

  /** `<` and `>`, in any place of a format, write nothing and set the order. */
  lemma OrderStep(fmt: string, i: nat, h: Header, args: seq<Value>, total: nat)
    requires i < |fmt| && ValidHeader(h) && (fmt[i] == '<' || fmt[i] == '>')
    ensures PackFrom(fmt, i, h, args, total) == PackFrom(fmt, i + 1, Header(fmt[i] == '<', h.maxalign), args, total)
  {
    hide GetDetails, PackItem, TakesArgument, ValidHeader;
    OrderDetails(h, total, fmt, i);
    var h' := Header(fmt[i] == '<', h.maxalign);
    NothingDone(Details(h', Knop, 0, 0, i + 1), Int(0), [], 0);
    assert ValidHeader(h') by { SameAlign(h, h'); }
    var rest := PackFrom(fmt, i + 1, h', args, total);
    if rest.Ok? { assert Fill(0, 0) + [] + rest.value == rest.value; }
  }

  lemma SameAlign(h: Header, h': Header)
    requires ValidHeader(h) && h'.maxalign == h.maxalign
    ensures ValidHeader(h')
  {
  }

  /** The same when reading. */
  lemma OrderStepBack(fmt: string, i: nat, h: Header, data: seq<Byte>, pos: nat)
    requires i < |fmt| && ValidHeader(h) && pos <= |data| && (fmt[i] == '<' || fmt[i] == '>')
    ensures UnpackFrom(fmt, i, h, data, pos) == UnpackFrom(fmt, i + 1, Header(fmt[i] == '<', h.maxalign), data, pos)
  {
    hide GetDetails, UnpackItem, ValidHeader;
    OrderDetails(h, pos, fmt, i);
    var h' := Header(fmt[i] == '<', h.maxalign);
    NothingDone(Details(h', Knop, 0, 0, i + 1), Int(0), data, pos);
    assert ValidHeader(h') by { SameAlign(h, h'); }
    var rest := UnpackFrom(fmt, i + 1, h', data, pos);
    if rest.Ok? { assert [] + rest.value.0 == rest.value.0; }
  }

  lemma {:induction false} NumberByte(bytes: seq<Byte>, k: nat)
    requires k < |bytes|
    ensures ByteOf(Number(bytes), k) == bytes[k]
    decreases k
  {
    var rest := Number(bytes[1..]);
    assert (bytes[0] + 256 * rest) % 256 == bytes[0] && (bytes[0] + 256 * rest) / 256 == rest;
    if k > 0 { NumberByte(bytes[1..], k - 1); }
  }

  lemma {:induction false} NumberBelow(bytes: seq<Byte>)
    ensures Number(bytes) < Shifted(1, |bytes|) == Pow256(|bytes|)
    decreases |bytes|
  {
    if bytes != [] { NumberBelow(bytes[1..]); }
  }

  /** An integer is read as the number that has these bytes, in the order of the header; only one of more than eight bytes
      may be refused. */
  lemma UnpackedBytes(bytes: seq<Byte>, little: bool, signed: bool, k: nat)
    requires 1 <= |bytes| <= 16 && k < |bytes|
    ensures var r := UnpackInt(bytes, little, |bytes|, signed);
            && (|bytes| <= 8 ==> r.Ok?)
            && (r.Ok? ==> ByteOf(Form(r.value, signed), k) == bytes[PlaceOf(k, |bytes|, little)])
            && (r.Ok? ==> LuaInteger(r.value) && (|bytes| < 8 && !signed ==> r.value >= 0))
  {
    var b := Ordered(bytes, little);
    var limit := if |bytes| < 8 then |bytes| else 8;
    var u := Number(b[..limit]);
    assert b[k] == bytes[PlaceOf(k, |bytes|, little)];
    hide Number, ByteOf, Shifted, Pow256;
    NumberBelow(b[..limit]);
    WordSize();
    PowSizes();
    if k < limit {
      LowByte(bytes, little, signed, k, u);
    } else {
      HighByte(bytes, little, signed, k, u);
    }
  }

  lemma LowByte(bytes: seq<Byte>, little: bool, signed: bool, k: nat, u: nat)
    requires 1 <= |bytes| <= 16 && k < |bytes| && k < 8
    requires var limit := if |bytes| < 8 then |bytes| else 8;
             u == Number(Ordered(bytes, little)[..limit]) < Shifted(1, limit) == Pow256(limit)
    ensures var r := UnpackInt(bytes, little, |bytes|, signed);
            r.Ok? ==> ByteOf(Form(r.value, signed), k) == Ordered(bytes, little)[k]
  {
    var b := Ordered(bytes, little);
    var limit := if |bytes| < 8 then |bytes| else 8;
    hide Number, ByteOf, Shifted, Pow256, Ordered;
    WordSize();
    PowSizes();
    NumberByte(b[..limit], k);
    assert b[..limit][k] == b[k];
    BytesBelow(u - Pow256(limit), limit, k);
  }

  lemma HighByte(bytes: seq<Byte>, little: bool, signed: bool, k: nat, u: nat)
    requires 8 <= k < |bytes| <= 16 && u == Number(Ordered(bytes, little)[..8]) < 0x1_0000_0000_0000_0000
    ensures var r := UnpackInt(bytes, little, |bytes|, signed);
            r.Ok? ==> LuaInteger(r.value) && ByteOf(Form(r.value, signed), k) == Ordered(bytes, little)[k]
  {
    hide Number, ByteOf, Shifted, Ordered;
    WordSize();
    BytesAbove(u, 8, k);
    BytesAbove(u - 0x1_0000_0000_0000_0000, 8, k);
  }

  // ----- what is accepted -----

  /** One more than the largest unsigned number of that many bytes. */
  const LIMITS: seq<nat> := [0x100, 0x1_0000, 0x100_0000, 0x1_0000_0000, 0x100_0000_0000, 0x1_0000_0000_0000, 0x100_0000_0000_0000]

  predicate InRange(n: int, size: nat, signed: bool)
    requires size >= 1
  {
    if size >= 8 then true
    else if signed then -(LIMITS[size - 1] / 2) <= n < LIMITS[size - 1] / 2
    else 0 <= n < LIMITS[size - 1]
  }

  lemma LimitIs(size: nat)
    requires 1 <= size < 8
    ensures Pow256(size) == LIMITS[size - 1] && LIMITS[size - 1] % 2 == 0
  {
    PowSizes();
    hide Pow256;
  }

  /** An option takes an argument of its type that fits it, and no other: an integer that has as many bytes, a string no
      longer than its fixed size, one whose length fits the count before it, or one without zeros before its
      terminator. */
  lemma ItemAccepts(d: Details, arg: Value)
    requires d.kind.Kint? || d.kind.Kuint? || d.kind.Kstring? ==> 1 <= d.size <= 16
    requires arg.Int? ==> LuaInteger(arg.n)
    requires arg.Str? ==> LuaInteger(|arg.s|)
    ensures PackItem(d, arg).Ok? <==>
            match d.kind
            case Kint => arg.Int? && InRange(arg.n, d.size, true)
            case Kuint => arg.Int? && InRange(arg.n, d.size, false)
            case Kchar => arg.Str? && |arg.s| <= d.size
            case Kstring => arg.Str? && InRange(|arg.s|, d.size, false)
            case Kzstr => arg.Str? && 0 !in arg.s
            case _ => true
  {
    hide PackInt, Pow256;
    if (d.kind.Kint? || d.kind.Kuint? || d.kind.Kstring?) && d.size < 8 { LimitIs(d.size); }
  }

  /** An integer of more than eight bytes is refused exactly when a byte beyond the eighth is not the sign of a signed one,
      or zero for an unsigned one. */
  lemma RefusedBytes(bytes: seq<Byte>, little: bool, signed: bool)
    requires 8 < |bytes| <= 16
    ensures var sign := if signed && bytes[PlaceOf(7, |bytes|, little)] >= 128 then 255 else 0;
            UnpackInt(bytes, little, |bytes|, signed).Bad? <==>
            exists k :: 8 <= k < |bytes| && bytes[PlaceOf(k, |bytes|, little)] != sign
  {
    var b := Ordered(bytes, little);
    forall k | 0 <= k < |bytes| ensures b[k] == bytes[PlaceOf(k, |bytes|, little)] {}
    SignBit(b[..8]);
    hide Ordered, Number, Pow256;
    var r := UnpackInt(bytes, little, |bytes|, signed);
    var sign := if signed && b[7] >= 128 then 255 else 0;
    assert r.Bad? <==> exists k :: 8 <= k < |bytes| && b[k] != sign;
    if r.Bad? {
      var k :| 8 <= k < |bytes| && b[k] != sign;
      assert bytes[PlaceOf(k, |bytes|, little)] != sign;
    }
  }

  /** The highest bit of eight bytes. */
  lemma SignBit(b: seq<Byte>)
    requires |b| == 8
    ensures Number(b) >= 0x8000_0000_0000_0000 <==> b[7] >= 128
    ensures Number(b) < 0x1_0000_0000_0000_0000
  {
    assert Number(b[7..]) == b[7] by { assert b[7..][1..] == []; }
    NumberTail(b, 6);
    NumberTail(b, 5);
    NumberTail(b, 4);
    NumberTail(b, 3);
    NumberTail(b, 2);
    NumberTail(b, 1);
    NumberTail(b, 0);
    assert b[0..] == b;
    hide Number;
  }

  lemma NumberTail(b: seq<Byte>, i: nat)
    requires i < |b|
    ensures Number(b[i..]) == b[i] + 256 * Number(b[i + 1..])
  {
    assert b[i..][1..] == b[i + 1..];
  }
}
