/** Base32 in adclib: bytes regrouped into five-bit digits and back, one digit at a time. */
module Base32 {
  type Byte = bv8

  // ----- the specification: bits -----

  /** Bit `t` of a byte, the most significant first. */
  predicate Bit8(b: Byte, t: nat) {
    if t == 0 then b & 0x80 != 0 else if t == 1 then b & 0x40 != 0 else if t == 2 then b & 0x20 != 0
    else if t == 3 then b & 0x10 != 0 else if t == 4 then b & 0x08 != 0 else if t == 5 then b & 0x04 != 0
    else if t == 6 then b & 0x02 != 0 else t == 7 && b & 0x01 != 0
  }

  /** Bit `t` of a digit, which is the low five bits of a byte. */
  predicate Bit5(d: Byte, t: nat) {
    if t == 0 then d & 0x10 != 0 else if t == 1 then d & 0x08 != 0 else if t == 2 then d & 0x04 != 0
    else if t == 3 then d & 0x02 != 0 else t == 4 && d & 0x01 != 0
  }

  /** Bit `k` of a byte string, and of a digit string; zero beyond the end. */
  predicate ByteBit(src: seq<Byte>, k: nat) {
    k / 8 < |src| && Bit8(src[k / 8], k % 8)
  }

  predicate DigitBit(ds: seq<Byte>, k: nat) {
    k / 5 < |ds| && Bit5(ds[k / 5], k % 5)
  }

  function Five(a: bool, b: bool, c: bool, d: bool, e: bool): Byte {
    (if a then 16 else 0) | (if b then 8 else 0) | (if c then 4 else 0) | (if d then 2 else 0) | (if e then 1 else 0)
  }

  /** The five bits of digit `j`. */
  function DigitAt(src: seq<Byte>, j: nat): Byte {
    Five(ByteBit(src, 5 * j), ByteBit(src, 5 * j + 1), ByteBit(src, 5 * j + 2), ByteBit(src, 5 * j + 3), ByteBit(src, 5 * j + 4))
  }

  /** How many digits `n` bytes take, without padding. */
  function DigitCount(n: nat): nat {
    (8 * n + 4) / 5
  }

  /** The digits of a byte string. */
  function ToDigits(src: seq<Byte>): (ds: seq<Byte>)
    ensures |ds| == DigitCount(|src|) && forall j :: 0 <= j < |ds| ==> ds[j] == DigitAt(src, j)
  {
    seq(DigitCount(|src|), j requires 0 <= j => DigitAt(src, j))
  }

  /** The bytes are the bits of the digits. */
  ghost predicate FromDigits(ds: seq<Byte>, bytes: seq<Byte>) {
    forall k :: 0 <= k < 8 * |bytes| ==> (ByteBit(bytes, k) <==> DigitBit(ds, k))
  }

  lemma FiveBits(a: bool, b: bool, c: bool, d: bool, e: bool)
    ensures var f := Five(a, b, c, d, e);
            f < 32 && Bit5(f, 0) == a && Bit5(f, 1) == b && Bit5(f, 2) == c && Bit5(f, 3) == d && Bit5(f, 4) == e
  {
  }

  lemma SameBits8(a: Byte, b: Byte)
    requires Bit8(a, 0) == Bit8(b, 0) && Bit8(a, 1) == Bit8(b, 1) && Bit8(a, 2) == Bit8(b, 2) && Bit8(a, 3) == Bit8(b, 3)
    requires Bit8(a, 4) == Bit8(b, 4) && Bit8(a, 5) == Bit8(b, 5) && Bit8(a, 6) == Bit8(b, 6) && Bit8(a, 7) == Bit8(b, 7)
    ensures a == b
  {
  }

  lemma SameBits5(a: Byte, b: Byte)
    requires a < 32 && b < 32
    requires Bit5(a, 0) == Bit5(b, 0) && Bit5(a, 1) == Bit5(b, 1) && Bit5(a, 2) == Bit5(b, 2) && Bit5(a, 3) == Bit5(b, 3)
    requires Bit5(a, 4) == Bit5(b, 4)
    ensures a == b
  {
  }

  lemma DigitAtBit(src: seq<Byte>, j: nat, t: nat)
    requires t < 5
    ensures DigitAt(src, j) < 32 && (Bit5(DigitAt(src, j), t) <==> ByteBit(src, 5 * j + t))
  {
    hide ByteBit;
    FiveBits(ByteBit(src, 5 * j), ByteBit(src, 5 * j + 1), ByteBit(src, 5 * j + 2), ByteBit(src, 5 * j + 3), ByteBit(src, 5 * j + 4));
    hide Bit5, Five;
  }

  /** Regrouping keeps every bit. */
  lemma BitKept(src: seq<Byte>, k: nat)
    requires k < 8 * |src|
    ensures DigitBit(ToDigits(src), k) <==> ByteBit(src, k)
  {
    hide ByteBit, Bit5, DigitAt, ToDigits;
    var j, t := k / 5, k % 5;
    assert k == 5 * j + t && j < DigitCount(|src|);
    DigitAtBit(src, j, t);
  }

  /** The bits determine the bytes. */
  lemma BitsDetermine(ds: seq<Byte>, a: seq<Byte>, b: seq<Byte>)
    requires |a| == |b| && FromDigits(ds, a) && FromDigits(ds, b)
    ensures a == b
  {
    forall m | 0 <= m < |a| ensures a[m] == b[m] {
      forall t | 0 <= t < 8 ensures Bit8(a[m], t) == Bit8(b[m], t) {
        var k := 8 * m + t;
        assert k / 8 == m && k % 8 == t;
        assert ByteBit(a, k) == DigitBit(ds, k) == ByteBit(b, k);
      }
      SameBits8(a[m], b[m]);
    }
  }

  /** What comes from the digits of a byte string is that byte string. */
  lemma DigitsBack(src: seq<Byte>, bytes: seq<Byte>)
    requires |bytes| == |src| && FromDigits(ToDigits(src), bytes)
    ensures bytes == src
  {
    forall k | 0 <= k < 8 * |src| ensures ByteBit(src, k) <==> DigitBit(ToDigits(src), k) {
      BitKept(src, k);
    }
    BitsDetermine(ToDigits(src), bytes, src);
  }

  // ----- shifts by a variable amount -----

  function Shr(b: Byte, k: nat): Byte
    requires k <= 8
  {
    if k == 0 then b else if k == 1 then b >> 1 else if k == 2 then b >> 2 else if k == 3 then b >> 3
    else if k == 4 then b >> 4 else if k == 5 then b >> 5 else if k == 6 then b >> 6 else if k == 7 then b >> 7 else 0
  }

  /** Shifted left in a byte: what goes out at the top is lost. */
  function Shl(b: Byte, k: nat): Byte
    requires k <= 8
  {
    if k == 0 then b else if k == 1 then b << 1 else if k == 2 then b << 2 else if k == 3 then b << 3
    else if k == 4 then b << 4 else if k == 5 then b << 5 else if k == 6 then b << 6 else if k == 7 then b << 7 else 0
  }

  function Or(a: Byte, b: Byte): Byte {
    a | b
  }

  function And(a: Byte, b: Byte): Byte {
    a & b
  }

  /** Bit `t` of two bytes one after the other. */
  predicate Bit16(b: Byte, c: Byte, t: nat) {
    if t < 8 then Bit8(b, t) else Bit8(c, t - 8)
  }

  /** Five bits inside one byte. */
  lemma TakeLow(b: Byte, c: Byte, key: nat)
    requires key <= 3
    ensures var d := And(Shr(b, 3 - key), 0x1F);
            && d < 32 && Bit5(d, 0) == Bit16(b, c, key) && Bit5(d, 1) == Bit16(b, c, key + 1) && Bit5(d, 2) == Bit16(b, c, key + 2)
            && Bit5(d, 3) == Bit16(b, c, key + 3) && Bit5(d, 4) == Bit16(b, c, key + 4)
  {
    if key == 0 {
    } else if key == 1 {
    } else if key == 2 {
    } else {
    }
  }

  /** Five bits that begin in one byte and end in the next. */
  lemma TakeHigh(b: Byte, c: Byte, key: nat)
    requires 3 < key < 8
    ensures var d := Or(Shl(And(b, Shr(0xFF, key)), key - 3), Shr(c, 11 - key));
            && d < 32 && Bit5(d, 0) == Bit16(b, c, key) && Bit5(d, 1) == Bit16(b, c, key + 1) && Bit5(d, 2) == Bit16(b, c, key + 2)
            && Bit5(d, 3) == Bit16(b, c, key + 3) && Bit5(d, 4) == Bit16(b, c, key + 4)
  {
    if key == 4 {
    } else if key == 5 {
    } else if key == 6 {
    } else {
    }
  }

  // ----- the tables -----

  /** The alphabet of section 6 of RFC 4648. */
  const ALPHABET := "ABCDEFGHIJKLMNOPQRSTUVWXYZ234567"

  /** `BASE32_alpha` */
  function Alpha(d: Byte): (c: char)
    requires d < 32
  {
    var n := d as int;
    if n < 26 then ('A' as int + n) as char else ('2' as int + (n - 26)) as char
  }

  /** `BASE32_table`: the value of a digit in either case, or -1. */
  function Value(c: char): (v: int)
    ensures -1 <= v < 32
  {
    if 'A' <= c <= 'Z' then (c - 'A') as int else if 'a' <= c <= 'z' then (c - 'a') as int
    else if '2' <= c <= '7' then (c - '2') as int + 26 else -1
  }

  lemma ValueAlpha(d: Byte)
    requires d < 32
    ensures Value(Alpha(d)) == d as int && Alpha(d) != '\0'
  {
  }

  /** The digits of a text, up to its terminator. */
  function Values(text: string): (ds: seq<Byte>)
    ensures forall j :: 0 <= j < |ds| ==> ds[j] < 32
  {
    if text == [] || text[0] == '\0' then []
    else if Value(text[0]) == -1 then Values(text[1..])
    else [AsByte(Value(text[0]))] + Values(text[1..])
  }

  function AsByte(v: int): Byte {
    if 0 <= v < 256 then v as bv8 else 0
  }

  function Spell(ds: seq<Byte>): (text: string)
    requires forall j :: 0 <= j < |ds| ==> ds[j] < 32
    ensures |text| == |ds| && forall j :: 0 <= j < |ds| ==> text[j] == Alpha(ds[j])
  {
    seq(|ds|, j requires 0 <= j < |ds| => Alpha(ds[j]))
  }

  lemma {:induction false} ValuesSpell(ds: seq<Byte>)
    requires forall j :: 0 <= j < |ds| ==> ds[j] < 32
    ensures Values(Spell(ds)) == ds
    decreases |ds|
  {
    hide Alpha, Value;
    if ds != [] {
      ValuesSpell(ds[1..]);
      ValueAlpha(ds[0]);
      assert Spell(ds)[1..] == Spell(ds[1..]);
      assert (ds[0] as int) as bv8 == ds[0];
    }
  }

  /** The characters that are no digits in either case, and do not end a text. */
  predicate Foreign(c: char) {
    !('A' <= c <= 'Z') && !('a' <= c <= 'z') && !('2' <= c <= '7') && c as int != 0
  }

  /** The same character, or the small letter for a capital one. */
  predicate SameDigit(a: char, b: char) {
    a == b || ('A' <= b <= 'Z' && a as int == b as int + 32)
  }

  /** A text that differs from another only in the case of letters and in characters that are no digits and no
      terminator. */
  ghost predicate Disguises(a: string, b: string) {
    if a == [] then b == []
    else
      || (Foreign(a[0]) && Disguises(a[1..], b))
      || (b != [] && SameDigit(a[0], b[0]) && Disguises(a[1..], b[1..]))
  }

  /** The table: every character of the alphabet, and its small letter, has its place as its value, and no other
      character has one. */
  lemma ValueIs(d: nat, c: char)
    requires d < 32
    ensures |ALPHABET| == 32 && (SameDigit(c, ALPHABET[d]) <==> Value(c) == d)
    ensures Value(c) == -1 <==> Foreign(c) || c as int == 0
  {
    hide Alpha, SameDigit, Value, Foreign;
    AlphaIs(d as bv8);
    ValueSame(d, c);
    ValueNone(c);
  }

  lemma ValueNone(c: char)
    ensures Value(c) == -1 <==> Foreign(c) || c as int == 0
  {
  }

  lemma ValueSame(d: nat, c: char)
    requires d < 32
    ensures SameDigit(c, Alpha(d as bv8)) <==> Value(c) == d
  {
    assert (d as bv8) as int == d;
  }

  lemma AlphaIs(d: Byte)
    requires d < 32
    ensures |ALPHABET| == 32 && Alpha(d) == ALPHABET[d]
  {
    if d < 16 {
      AlphaLow(d);
    } else {
      AlphaHigh(d);
    }
  }

  lemma AlphaLow(d: Byte)
    requires d < 16
    ensures |ALPHABET| == 32 && Alpha(d) == ALPHABET[d]
  {
    if d < 8 {
      if d == 0 {} else if d == 1 {} else if d == 2 {} else if d == 3 {} else if d == 4 {} else if d == 5 {} else if d == 6 {} else {}
    } else {
      if d == 8 {} else if d == 9 {} else if d == 10 {} else if d == 11 {} else if d == 12 {} else if d == 13 {} else if d == 14 {} else {}
    }
  }

  lemma AlphaHigh(d: Byte)
    requires 16 <= d < 32
    ensures |ALPHABET| == 32 && Alpha(d) == ALPHABET[d]
  {
    if d < 24 {
      if d == 16 {} else if d == 17 {} else if d == 18 {} else if d == 19 {} else if d == 20 {} else if d == 21 {} else if d == 22 {} else {}
    } else {
      if d == 24 {} else if d == 25 {} else if d == 26 {} else if d == 27 {} else if d == 28 {} else if d == 29 {} else if d == 30 {} else {}
    }
  }

  lemma {:induction false} DisguiseKeepsValues(a: string, b: string)
    requires Disguises(a, b) && '\0' !in b && forall j :: 0 <= j < |b| ==> Value(b[j]) != -1
    ensures Values(a) == Values(b)
    decreases |a|
  {
    hide Value, Foreign, SameDigit;
    if a != [] {
      NotTerminator(a[0]);
      ForeignHasNone(a[0]);
      if Foreign(a[0]) && Disguises(a[1..], b) {
        DisguiseKeepsValues(a[1..], b);
      } else {
        NotTerminator(b[0]);
        SameValue(a[0], b[0]);
        DisguiseKeepsValues(a[1..], b[1..]);
      }
    }
  }

  lemma ForeignHasNone(c: char)
    ensures Foreign(c) ==> Value(c) == -1 && c != '\0'
  {
  }

  lemma SameValue(a: char, b: char)
    requires SameDigit(a, b)
    ensures Value(a) == Value(b)
  {
  }

  lemma NotTerminator(c: char)
    ensures Value(c) != -1 ==> c != '\0'
  {
  }

  // ----- encoding -----

  lemma BitsFrom(src: seq<Byte>, i: nat, t: nat)
    requires i < |src| && t < 16
    ensures ByteBit(src, 8 * i + t) == Bit16(src[i], if i + 1 < |src| then src[i + 1] else 0, t)
  {
    var k := 8 * i + t;
    assert k / 8 == (if t < 8 then i else i + 1) && k % 8 == (if t < 8 then t else t - 8);
    assert forall u :: 0 <= u < 8 ==> !Bit8(0, u);
  }

  /** The bits of a digit that begins at bit `key` of byte `i`. */
  lemma DigitBits(src: seq<Byte>, i: nat, key: nat, j: nat, d: Byte)
    requires i < |src| && key < 8 && 5 * j == 8 * i + key
    requires var c := if i + 1 < |src| then src[i + 1] else 0;
             && Bit5(d, 0) == Bit16(src[i], c, key) && Bit5(d, 1) == Bit16(src[i], c, key + 1)
             && Bit5(d, 2) == Bit16(src[i], c, key + 2) && Bit5(d, 3) == Bit16(src[i], c, key + 3)
             && Bit5(d, 4) == Bit16(src[i], c, key + 4)
    ensures Bit5(d, 0) == ByteBit(src, 5 * j) && Bit5(d, 1) == ByteBit(src, 5 * j + 1) && Bit5(d, 2) == ByteBit(src, 5 * j + 2)
    ensures Bit5(d, 3) == ByteBit(src, 5 * j + 3) && Bit5(d, 4) == ByteBit(src, 5 * j + 4)
  {
    hide ByteBit, Bit16, Bit5;
    BitsFrom(src, i, key);
    BitsFrom(src, i, key + 1);
    BitsFrom(src, i, key + 2);
    BitsFrom(src, i, key + 3);
    BitsFrom(src, i, key + 4);
  }

  lemma DigitIs(src: seq<Byte>, i: nat, key: nat, j: nat, d: Byte)
    requires i < |src| && key < 8 && 5 * j == 8 * i + key && d < 32
    requires var c := if i + 1 < |src| then src[i + 1] else 0;
             && Bit5(d, 0) == Bit16(src[i], c, key) && Bit5(d, 1) == Bit16(src[i], c, key + 1)
             && Bit5(d, 2) == Bit16(src[i], c, key + 2) && Bit5(d, 3) == Bit16(src[i], c, key + 3)
             && Bit5(d, 4) == Bit16(src[i], c, key + 4)
    ensures d == DigitAt(src, j)
  {
    hide ByteBit, Bit16, Bit5, DigitAt;
    DigitBits(src, i, key, j, d);
    DigitAtBit(src, j, 0);
    DigitAtBit(src, j, 1);
    DigitAtBit(src, j, 2);
    DigitAtBit(src, j, 3);
    DigitAtBit(src, j, 4);
    SameBits5(d, DigitAt(src, j));
  }

  /** One turn of the loop of `TOBASE32`: a digit, and where the next one begins. */
  method NextDigit(src: seq<Byte>, i: nat, key: nat) returns (chr: Byte, i': nat, key': nat)
    requires i < |src| && key < 8 && (8 * i + key) % 5 == 0
    ensures chr < 32 && chr == DigitAt(src, (8 * i + key) / 5)
    ensures key' < 8 && 8 * i' + key' == 8 * i + key + 5 && i' <= |src| && (i' == |src| ==> key' <= 4)
  {
    hide ByteBit, Bit8, Bit5, Bit16, Five, Shr, Shl, And, Or, DigitAt;
    ghost var c: Byte := if i + 1 < |src| then src[i + 1] else 0;
    key' := (key + 5) % 8;
    i' := i;
    if key > 3 {
      chr := And(src[i], Shr(0xFF, key));
      chr := Shl(chr, key');
      NoBits(chr, 8 - key');
      if i + 1 < |src| {
        chr := Or(chr, Shr(src[i + 1], 8 - key'));
      }
      i' := i + 1;
      TakeHigh(src[i], c, key);
    } else {
      chr := And(Shr(src[i], 8 - (key + 5)), 0x1F);
      if key' == 0 {
        i' := i + 1;
      }
      TakeLow(src[i], c, key);
    }
    DigitIs(src, i, key, (8 * i + key) / 5, chr);
  }

  lemma NoBits(b: Byte, k: nat)
    requires k <= 8
    ensures Or(b, Shr(0, k)) == b
  {
  }

  /** `TOBASE32` */
  method ToBase32(src: seq<Byte>) returns (ret: string)
    ensures ret == Spell(ToDigits32(src))
    ensures |ALPHABET| == 32 && |ret| == DigitCount(|src|)
    ensures forall j :: 0 <= j < |ret| ==> DigitAt(src, j) < 32 && ret[j] == ALPHABET[DigitAt(src, j)]
  {
    var key, i: nat := 0, 0;
    ret := "";
    while i < |src|
      invariant key < 8 && i <= |src| && 5 * |ret| == 8 * i + key && (i == |src| ==> key <= 4)
      invariant forall j :: 0 <= j < |ret| ==> DigitAt(src, j) < 32 && ret[j] == Alpha(DigitAt(src, j))
      decreases 8 * |src| + 8 - (8 * i + key)
    {
      hide DigitAt, Alpha;
      var chr;
      chr, i, key := NextDigit(src, i, key);
      ret := ret + [Alpha(chr)];
    }
    assert |ret| == DigitCount(|src|);
    assert ret == Spell(ToDigits32(src));
    AlphaIs(0);
    forall j | 0 <= j < |ret| ensures ret[j] == ALPHABET[DigitAt(src, j)] { AlphaIs(DigitAt(src, j)); }
  }

  /** `ToDigits`, with what `Spell` needs to know. */
  function ToDigits32(src: seq<Byte>): (ds: seq<Byte>)
    ensures ds == ToDigits(src) && forall j :: 0 <= j < |ds| ==> ds[j] < 32
  {
    DigitsSmall(src);
    ToDigits(src)
  }

  lemma DigitsSmall(src: seq<Byte>)
    ensures forall j :: 0 <= j < |ToDigits(src)| ==> ToDigits(src)[j] < 32
  {
    forall j | 0 <= j < |ToDigits(src)| ensures ToDigits(src)[j] < 32 {
      FiveBits(ByteBit(src, 5 * j), ByteBit(src, 5 * j + 1), ByteBit(src, 5 * j + 2), ByteBit(src, 5 * j + 3), ByteBit(src, 5 * j + 4));
      hide ByteBit, Five;
    }
  }

  // ----- decoding -----

  /** The bits of the first `q` digits are in the buffer, and all its other bits are zero. */
  ghost predicate Filled(buf: seq<Byte>, ds: seq<Byte>, q: nat) {
    forall k :: 0 <= k < 8 * |buf| ==> (ByteBit(buf, k) <==> k < 5 * q && DigitBit(ds, k))
  }

  lemma OrBit(a: Byte, b: Byte, t: nat)
    requires t < 8
    ensures Bit8(Or(a, b), t) <==> Bit8(a, t) || Bit8(b, t)
  {
    if t < 4 {
      if t == 0 {
      } else if t == 1 {
      } else if t == 2 {
      }
    } else if t == 4 {
    } else if t == 5 {
    } else if t == 6 {
    }
  }

  /** The bits of a digit shifted up inside a byte. */
  lemma ShiftedBit(d: Byte, s: nat, t: nat)
    requires s <= 3 && d < 32 && t < 8
    ensures Bit8(Shl(d, s), t) <==> 3 - s <= t < 8 - s && Bit5(d, t - (3 - s))
  {
    if s == 0 {
    } else if s == 1 {
    } else if s == 2 {
    } else {
    }
  }

  /** The first bits of a digit at the end of a byte. */
  lemma EndBit(d: Byte, key: nat, t: nat)
    requires 3 < key < 8 && d < 32 && t < 8
    ensures Bit8(Shr(d, key - 3), t) <==> t >= key && Bit5(d, t - key)
  {
    if key == 4 {
    } else if key == 5 {
    } else if key == 6 {
    } else {
    }
  }

  /** Its other bits at the start of the next byte. */
  lemma StartBit(d: Byte, key: nat, t: nat)
    requires 3 < key < 8 && d < 32 && t < 8
    ensures Bit8(Shl(d, 11 - key), t) <==> t < key - 3 && Bit5(d, 8 - key + t)
  {
    if key == 4 {
    } else if key == 5 {
    } else if key == 6 {
    } else {
    }
  }

  lemma FilledLow(buf: seq<Byte>, ds: seq<Byte>, q: nat, slot: nat, key: nat)
    requires Filled(buf, ds, q) && key <= 3 && 5 * q == 8 * slot + key && slot < |buf| && q < |ds| && ds[q] < 32
    ensures Filled(buf[slot := Or(buf[slot], Shl(ds[q], 3 - key))], ds, q + 1)
  {
    var buf' := buf[slot := Or(buf[slot], Shl(ds[q], 3 - key))];
    forall k | 0 <= k < 8 * |buf'| ensures ByteBit(buf', k) <==> k < 5 * (q + 1) && DigitBit(ds, k) {
      hide Bit8, Bit5, Shl, Shr, Or;
      OneStep(buf, ds, q, k);
      if k / 8 == slot {
        OrBit(buf[slot], Shl(ds[q], 3 - key), k % 8);
        ShiftedBit(ds[q], 3 - key, k % 8);
        assert k - 5 * q == k % 8 - key;
      }
    }
  }

  /** Where bit `k` of the digits is, next to digit `q`. */
  lemma OneStep(buf: seq<Byte>, ds: seq<Byte>, q: nat, k: nat)
    requires Filled(buf, ds, q) && q < |ds| && k < 8 * |buf|
    ensures ByteBit(buf, k) == Bit8(buf[k / 8], k % 8)
    ensures ByteBit(buf, k) <==> k < 5 * q && DigitBit(ds, k)
    ensures 5 * q <= k < 5 * q + 5 ==> DigitBit(ds, k) == Bit5(ds[q], k - 5 * q)
  {
    if 5 * q <= k < 5 * q + 5 {
      assert k / 5 == q && k % 5 == k - 5 * q;
    }
  }

  lemma HighAt(buf: seq<Byte>, buf': seq<Byte>, ds: seq<Byte>, q: nat, slot: nat, key: nat, k: nat)
    requires Filled(buf, ds, q) && 3 < key < 8 && 5 * q == 8 * slot + key && slot < |buf| && q < |ds| && ds[q] < 32
    requires |buf'| == |buf| && k < 8 * |buf|
    requires k / 8 != slot && k / 8 != slot + 1 ==> buf'[k / 8] == buf[k / 8]
    requires k / 8 == slot ==> buf'[slot] == Or(buf[slot], Shr(ds[q], key - 3))
    requires k / 8 == slot + 1 ==> buf'[slot + 1] == Or(buf[slot + 1], Shl(ds[q], 11 - key))
    ensures ByteBit(buf', k) <==> k < 5 * (q + 1) && DigitBit(ds, k)
  {
    OneStep(buf, ds, q, k);
    hide Bit8, Bit5, Shl, Shr, Or, DigitBit, Filled;
    if k / 8 == slot {
      OrBit(buf[slot], Shr(ds[q], key - 3), k % 8);
      EndBit(ds[q], key, k % 8);
      assert k - 5 * q == k % 8 - key;
    } else if k / 8 == slot + 1 {
      OrBit(buf[slot + 1], Shl(ds[q], 11 - key), k % 8);
      StartBit(ds[q], key, k % 8);
      assert k - 5 * q == 8 - key + k % 8;
    }
  }

  lemma FilledHigh(buf: seq<Byte>, buf': seq<Byte>, ds: seq<Byte>, q: nat, slot: nat, key: nat)
    requires Filled(buf, ds, q) && 3 < key < 8 && 5 * q == 8 * slot + key && slot < |buf| && q < |ds| && ds[q] < 32
    requires |buf'| == |buf| && forall m :: 0 <= m < |buf| && m != slot && m != slot + 1 ==> buf'[m] == buf[m]
    requires buf'[slot] == Or(buf[slot], Shr(ds[q], key - 3))
    requires slot + 1 < |buf| ==> buf'[slot + 1] == Or(buf[slot + 1], Shl(ds[q], 11 - key))
    ensures Filled(buf', ds, q + 1)
  {
    forall k | 0 <= k < 8 * |buf'| ensures ByteBit(buf', k) <==> k < 5 * (q + 1) && DigitBit(ds, k) {
      HighAt(buf, buf', ds, q, slot, key, k);
    }
  }

  /** One character of the text: a digit, or none. */
  lemma NextValue(src: string, ds: seq<Byte>, i: nat, q: nat)
    requires i < |src| && src[i] != '\0' && q <= |ds| && Values(src[i..]) == ds[q..]
    ensures var v := Value(src[i]);
            if v == -1 then Values(src[i + 1..]) == ds[q..]
            else q < |ds| && ds[q] == AsByte(v) && ds[q] < 32 && Values(src[i + 1..]) == ds[q + 1..]
  {
    assert src[i..][1..] == src[i + 1..] && src[i..][0] == src[i];
    hide Value, AsByte;
    if Value(src[i]) != -1 {
      assert ds[q] == ds[q..][0] && ds[q + 1..] == ds[q..][1..];
    }
  }

  lemma NoMoreValues(src: string, ds: seq<Byte>, i: nat, q: nat)
    requires i <= |src| && (i < |src| ==> src[i] == '\0') && q <= |ds| && Values(src[i..]) == ds[q..]
    ensures q == |ds|
  {
  }

  /** `FROMBASE32`: the bits of the digits of the text, as many as there is room for, and zeros when there are too few.
      The first digit is stored before the position is compared with the size, so there has to be room for it. */
  method FromBase32(src: string, buffer: array<Byte>)
    requires buffer.Length > 0 || Values(src) == []
    modifies buffer
    ensures FromDigits(Values(src), buffer[..])
  {
    ghost var ds := Values(src);
    ghost var q: nat := 0;
    Clear(buffer);
    var key, slot, i: nat := 0, 0, 0;
    assert Filled(buffer[..], ds, 0) by { ZeroBits(buffer[..]); }
    assert src[0..] == src && ds[0..] == ds;
    hide Filled, FromDigits, Values, Value, AsByte, Shl, Shr;
    while i < |src| && src[i] != '\0'
      invariant i <= |src| && key < 8 && (slot < buffer.Length || ds == []) && 5 * q == 8 * slot + key && q <= |ds|
      invariant Values(src[i..]) == ds[q..] && Filled(buffer[..], ds, q)
    {
      var temp := Value(src[i]);
      NextValue(src, ds, i, q);
      i := i + 1;
      if temp != -1 {
        var full;
        key, slot, full := PutDigit(buffer, AsByte(temp), key, slot, ds, q);
        q := q + 1;
        if full {
          AllFilled(buffer[..], ds, q);
          return;
        }
      }
    }
    NoMoreValues(src, ds, i, q);
    AllFilled(buffer[..], ds, q);
  }

  /** `memset` */
  method Clear(buffer: array<Byte>)
    modifies buffer
    ensures forall m :: 0 <= m < buffer.Length ==> buffer[m] == 0
  {
    var m := 0;
    while m < buffer.Length
      invariant 0 <= m <= buffer.Length && forall k :: 0 <= k < m ==> buffer[k] == 0
    {
      buffer[m] := 0;
      m := m + 1;
    }
  }

  /** One digit of `FROMBASE32`; `full` when the buffer has no room left. */
  method PutDigit(buffer: array<Byte>, temp: Byte, key: nat, slot: nat, ghost ds: seq<Byte>, ghost q: nat)
      returns (key': nat, slot': nat, full: bool)
    requires key < 8 && slot < buffer.Length && 5 * q == 8 * slot + key && q < |ds| && temp == ds[q] && temp < 32
    requires Filled(buffer[..], ds, q)
    modifies buffer
    ensures Filled(buffer[..], ds, q + 1) && key' < 8 && 5 * (q + 1) == 8 * slot' + key'
    ensures if full then slot' == buffer.Length else slot' < buffer.Length
  {
    hide Filled, Shl, Shr, Or;
    key' := (key + 5) % 8;
    if key <= 3 {
      slot', full := PutInside(buffer, temp, key, key', slot, ds, q);
    } else {
      slot', full := PutAcross(buffer, temp, key, key', slot, ds, q);
    }
  }

  method PutInside(buffer: array<Byte>, temp: Byte, key: nat, key': nat, slot: nat, ghost ds: seq<Byte>, ghost q: nat)
      returns (slot': nat, full: bool)
    requires key <= 3 && key' == (key + 5) % 8 && slot < buffer.Length && 5 * q == 8 * slot + key && q < |ds|
    requires temp == ds[q] && temp < 32 && Filled(buffer[..], ds, q)
    modifies buffer
    ensures Filled(buffer[..], ds, q + 1) && slot' == (if key' == 0 then slot + 1 else slot) && full == (slot' == buffer.Length)
  {
    ghost var was := buffer[..];
    FilledLow(was, ds, q, slot, key);
    hide Filled, Shl, Shr, Or;
    slot' := slot;
    if key' == 0 {
      ShiftNone(temp);
      buffer[slot] := Or(buffer[slot], temp);
      slot' := slot + 1;
    } else {
      buffer[slot] := Or(buffer[slot], Shl(temp, 8 - key'));
    }
    assert buffer[..] == was[slot := Or(was[slot], Shl(temp, 3 - key))];
    full := slot' == buffer.Length;
  }

  method PutAcross(buffer: array<Byte>, temp: Byte, key: nat, key': nat, slot: nat, ghost ds: seq<Byte>, ghost q: nat)
      returns (slot': nat, full: bool)
    requires 3 < key < 8 && key' == (key + 5) % 8 && slot < buffer.Length && 5 * q == 8 * slot + key && q < |ds|
    requires temp == ds[q] && temp < 32 && Filled(buffer[..], ds, q)
    modifies buffer
    ensures Filled(buffer[..], ds, q + 1) && slot' == slot + 1 && full == (slot' == buffer.Length)
  {
    ghost var was := buffer[..];
    hide Filled, Shl, Shr, Or;
    assert key' == key - 3 && 8 - key' == 11 - key;
    var first := Or(buffer[slot], Shr(temp, key'));
    assert first == Or(was[slot], Shr(ds[q], key - 3));
    buffer[slot] := first;
    slot' := slot + 1;
    full := slot' == buffer.Length;
    if !full {
      var second := Or(buffer[slot'], Shl(temp, 8 - key'));
      assert second == Or(was[slot + 1], Shl(ds[q], 11 - key));
      buffer[slot'] := second;
    }
    FilledHigh(was, buffer[..], ds, q, slot, key);
  }

  lemma ShiftNone(d: Byte)
    ensures Shl(d, 0) == d
  {
  }

  lemma ZeroBits(buf: seq<Byte>)
    requires forall m :: 0 <= m < |buf| ==> buf[m] == 0
    ensures forall k :: 0 <= k < 8 * |buf| ==> !ByteBit(buf, k)
  {
  }

  /** The buffer is full, or the digits are used up. */
  lemma AllFilled(buf: seq<Byte>, ds: seq<Byte>, q: nat)
    requires Filled(buf, ds, q) && (5 * q >= 8 * |buf| || q >= |ds|)
    ensures FromDigits(ds, buf)
  {
  }

  // ----- round trip -----

  /** Decoding what was encoded, in any case and with anything between that is no digit, gives the bytes back. */
  method RoundTrip(src: seq<Byte>, text: string, buffer: array<Byte>) returns (encoded: string)
    requires buffer.Length == |src| && Disguises(text, Spell(ToDigits32(src)))
    modifies buffer
    ensures |encoded| == DigitCount(|src|) && buffer[..] == src
  {
    encoded := ToBase32(src);
    Undisguised(src, text);
    FromBase32(text, buffer);
    DigitsBack(src, buffer[..]);
  }

  /** A disguised encoding has the digits of the bytes. */
  lemma Undisguised(src: seq<Byte>, text: string)
    requires Disguises(text, Spell(ToDigits32(src)))
    ensures Values(text) == ToDigits(src)
  {
    var ds := ToDigits32(src);
    forall j | 0 <= j < |ds| ensures Value(Spell(ds)[j]) != -1 && Spell(ds)[j] != '\0' {
      ValueAlpha(ds[j]);
    }
    DisguiseKeepsValues(text, Spell(ds));
    ValuesSpell(ds);
  }
}
