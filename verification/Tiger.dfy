/** The streaming Tiger hash of adclib: a buffer of one block, filled by updates of any size. The compression function
    is a parameter. */
module Tiger {
  import opened Wrappers

  const BLOCK_SIZE := 64
  const WORD := 0x1_0000_0000_0000_0000

  /** The three 64-bit words of `res`. */
  datatype State = State(a: nat, b: nat, c: nat)

  const INITIAL := State(0x0123456789ABCDEF, 0xFEDCBA9876543210, 0xF096A5B4C3B2E187)

  type Compress = (seq<Byte>, State) -> State

  // ----- the specification -----

  /** The compression function over the whole blocks of `bytes`. */
  function Fold(f: Compress, st: State, bytes: seq<Byte>): State
    decreases |bytes|
  {
    if |bytes| < BLOCK_SIZE then st else Fold(f, f(bytes[..BLOCK_SIZE], st), bytes[BLOCK_SIZE..])
  }

  function Zeros(n: nat): (r: seq<Byte>)
    ensures |r| == n && forall i :: 0 <= i < n ==> r[i] == 0
  {
    seq(n, _ => 0)
  }

  /** A 64-bit word, little-endian. */
  function LittleEndian(n: nat, size: nat): (r: seq<Byte>)
    ensures |r| == size
  {
    if size == 0 then [] else [n % 256] + LittleEndian(n / 256, size - 1)
  }

  /** How many zeros bring a message, the byte after it and its length to whole blocks. */
  function ZeroCount(n: nat): nat {
    (BLOCK_SIZE - (n + 9) % BLOCK_SIZE) % BLOCK_SIZE
  }

  /** The message, 0x01, the zeros and the length in bits. */
  function Padded(msg: seq<Byte>): seq<Byte> {
    msg + [1] + Zeros(ZeroCount(|msg|)) + LittleEndian(|msg| * 8 % WORD, 8)
  }

  /** The padded message is whole blocks, with the least number of zeros. */
  lemma PaddedWhole(msg: seq<Byte>)
    ensures |Padded(msg)| % 64 == 0 && |msg| + 9 <= |Padded(msg)| < |msg| + 9 + 64
  {
    hide ZeroCount, Zeros, LittleEndian;
    ZeroCountIs(|msg|);
    assert |Padded(msg)| == |msg| + 9 + ZeroCount(|msg|);
  }

  /** Byte by byte: the message, a one, zeros, and in the last eight bytes the length in bits, lowest byte first. */
  lemma PaddedBytes(msg: seq<Byte>, k: nat)
    ensures var p := Padded(msg); var n := |p|;
            && n >= |msg| + 9 && p[..|msg|] == msg && p[|msg|] == 1
            && (|msg| < k < n - 8 ==> p[k] == 0)
            && (k < 8 ==> p[n - 8 + k] == |msg| * 8 / [1, 0x100, 0x1_0000, 0x100_0000, 0x1_0000_0000, 0x100_0000_0000,
                                                       0x1_0000_0000_0000, 0x100_0000_0000_0000][k] % 256)
  {
    hide ZeroCount;
    if k < 8 { LengthByte(|msg| * 8, k); }
    hide LittleEndian;
  }

  lemma LengthByte(n: nat, k: nat)
    requires k < 8
    ensures LittleEndian(n % WORD, 8)[k] == n / [1, 0x100, 0x1_0000, 0x100_0000, 0x1_0000_0000, 0x100_0000_0000,
                                                 0x1_0000_0000_0000, 0x100_0000_0000_0000][k] % 256
  {
    hide LittleEndian, Raised, Lowered;
    WordSize(n / WORD);
    HighLost(n % WORD, n / WORD, 8);
    assert n == n % WORD + n / WORD * WORD;
    LowerByte(n, k, 8);
    Divided(n, k);
  }

  /** What is left of a number when it has been divided by 256 `k` times. */
  function Lowered(n: nat, k: nat): nat
    decreases k
  {
    if k == 0 then n else Lowered(n / 256, k - 1)
  }

  /** A number times 256 to the `size`. */
  function Raised(n: nat, size: nat): nat {
    if size == 0 then n else 256 * Raised(n, size - 1)
  }

  lemma WordSize(n: nat)
    ensures Raised(n, 8) == n * WORD
  {
    assert Raised(n, 0) == n && Raised(n, 1) == 256 * n;
    assert Raised(n, 2) == 0x1_0000 * n;
    assert Raised(n, 4) == 0x1_0000_0000 * n;
    assert Raised(n, 6) == 0x1_0000_0000_0000 * n;
  }

  /** Digits beyond the word do not show in it. */
  lemma {:induction false} HighLost(n: nat, m: nat, size: nat)
    ensures LittleEndian(n + Raised(m, size), size) == LittleEndian(n, size)
    decreases size
  {
    if size > 0 {
      var r := Raised(m, size - 1);
      assert (n + 256 * r) % 256 == n % 256 && (n + 256 * r) / 256 == n / 256 + r;
      HighLost(n / 256, m, size - 1);
    }
  }

  lemma {:induction false} LowerByte(n: nat, k: nat, size: nat)
    requires k < size
    ensures LittleEndian(n, size)[k] == Lowered(n, k) % 256
    decreases size
  {
    if k > 0 { LowerByte(n / 256, k - 1, size - 1); }
  }

  lemma Divided(n: nat, k: nat)
    requires k < 8
    ensures Lowered(n, k) == n / [1, 0x100, 0x1_0000, 0x100_0000, 0x1_0000_0000, 0x100_0000_0000,
                                  0x1_0000_0000_0000, 0x100_0000_0000_0000][k]
  {
  }

  /** A whole block goes through the compression function before what comes after it. */
  lemma FoldsBlocks(f: Compress, st: State, block: seq<Byte>, rest: seq<Byte>)
    ensures |block| == 64 ==> Fold(f, st, block + rest) == Fold(f, f(block, st), rest)
    ensures |rest| < 64 ==> Fold(f, st, rest) == st
  {
    assert |block| == 64 ==> (block + rest)[..64] == block && (block + rest)[64..] == rest;
  }

  function Digest(f: Compress, msg: seq<Byte>): State {
    Fold(f, INITIAL, Padded(msg))
  }

  lemma {:induction false} FoldAppend(f: Compress, st: State, a: seq<Byte>, b: seq<Byte>)
    requires |a| % BLOCK_SIZE == 0
    ensures Fold(f, st, a + b) == Fold(f, Fold(f, st, a), b)
    decreases |a|
  {
    if a == [] {
      assert a + b == b;
    } else {
      assert (a + b)[..BLOCK_SIZE] == a[..BLOCK_SIZE] && (a + b)[BLOCK_SIZE..] == a[BLOCK_SIZE..] + b;
      FoldAppend(f, f(a[..BLOCK_SIZE], st), a[BLOCK_SIZE..], b);
    }
  }

  lemma FoldBlock(f: Compress, st: State, block: seq<Byte>)
    requires |block| == BLOCK_SIZE
    ensures Fold(f, st, block) == f(block, st)
  {
    assert block[..BLOCK_SIZE] == block && block[BLOCK_SIZE..] == [];
    assert Fold(f, f(block, st), []) == f(block, st);
  }

  /** One more block after whole blocks. */
  lemma BlockTaken(f: Compress, res: State, msg: seq<Byte>, block: seq<Byte>)
    requires |msg| % BLOCK_SIZE == 0 && |block| == BLOCK_SIZE && res == Fold(f, INITIAL, msg)
    ensures f(block, res) == Fold(f, INITIAL, msg + block)
  {
    FoldBlock(f, res, block);
    FoldAppend(f, INITIAL, msg, block);
    hide Fold;
  }

  lemma StillWhole(n: nat)
    requires n % BLOCK_SIZE == 0
    ensures (n + BLOCK_SIZE) % BLOCK_SIZE == 0
  {
  }

  /** Messages one after the other. */
  function Join(chunks: seq<seq<Byte>>): seq<Byte> {
    if chunks == [] then [] else Join(chunks[..|chunks| - 1]) + chunks[|chunks| - 1]
  }

  // ----- the class -----

  class TigerHash {
    const tigerCompress: Compress
    const tmp: array<Byte>
    var res: State
    var pos: nat
    /** Everything hashed so far. */
    ghost var msg: seq<Byte>

    constructor (f: Compress)
      ensures tigerCompress == f && Valid() && msg == [] && fresh(tmp)
      ensures res == State(0x0123456789ABCDEF, 0xFEDCBA9876543210, 0xF096A5B4C3B2E187)
    {
      tigerCompress := f;
      tmp := new Byte[BLOCK_SIZE](_ => 0);
      res, pos, msg := INITIAL, 0, [];
    }

    /** How much of the message is in whole blocks. */
    ghost function Whole(): (n: nat)
      reads this
      ensures n <= |msg| && n % BLOCK_SIZE == 0
    {
      |msg| - |msg| % BLOCK_SIZE
    }

    ghost predicate Valid()
      reads this, tmp
    {
      && tmp.Length == BLOCK_SIZE && pos == |msg| % WORD
      && res == Fold(tigerCompress, INITIAL, msg[..Whole()])
      && tmp[..|msg| % BLOCK_SIZE] == msg[Whole()..]
    }

    /** `memcpy` into the buffer. */
    method CopyTo(at: nat, data: seq<Byte>)
      requires at + |data| <= tmp.Length
      modifies tmp
      ensures tmp[..] == old(tmp[..at]) + data + old(tmp[at + |data|..])
    {
      var i := 0;
      while i < |data|
        invariant 0 <= i <= |data|
        invariant forall k :: 0 <= k < tmp.Length ==> tmp[k] == if at <= k < at + i then data[k - at] else old(tmp[k])
      {
        tmp[at + i] := data[i];
        i := i + 1;
      }
    }

    /** `update` */
    method Update(data: seq<Byte>)
      requires Valid()
      modifies this`res, this`pos, this`msg, tmp
      ensures Valid() && msg == old(msg) + data
    {
      ghost var before := msg;
      var tmppos := pos % BLOCK_SIZE;
      assert tmppos == |msg| % BLOCK_SIZE by { SmallMod(|msg|); }
      var str := data;
      if tmppos > 0 {
        str := FillBuffer(tmppos, data);
      }
      WholeBlocks(before + data, str);
    }

    /** The bytes that complete the block in the buffer, or all there are; what is left comes back. */
    method FillBuffer(tmppos: nat, data: seq<Byte>) returns (str: seq<Byte>)
      requires Valid() && 0 < tmppos == |msg| % BLOCK_SIZE
      modifies this`res, this`pos, this`msg, tmp
      ensures Valid() && old(msg) + data == msg + str && (str != [] ==> |msg| % BLOCK_SIZE == 0)
    {
      var n := if |data| <= BLOCK_SIZE - tmppos then |data| else BLOCK_SIZE - tmppos;
      ghost var whole := Whole();
      ghost var tail := msg[whole..];
      CopyTo(tmppos, data[..n]);
      str := data[n..];
      pos := (pos + n) % WORD;
      Advance(|msg|, n);
      ghost var was := msg;
      msg := msg + data[..n];
      assert was + data == msg + str;
      assert tmp[..tmppos + n] == tail + data[..n];
      TailGrows(was, data[..n], whole);
      if tmppos + n == BLOCK_SIZE {
        assert tmp[..] == tmp[..BLOCK_SIZE];
        FoldBlock(tigerCompress, res, tmp[..]);
        FoldAppend(tigerCompress, INITIAL, msg[..whole], tmp[..]);
        assert msg == msg[..whole] + tmp[..];
        res := tigerCompress(tmp[..], res);
        Rounded(|was|, n);
        assert msg[..Whole()] == msg && msg[Whole()..] == [];
      } else {
        NotRounded(|was|, n);
        assert Whole() == whole;
      }
    }

    /** One whole block taken straight from the data. */
    method TakeBlock(block: seq<Byte>)
      requires Valid() && |msg| % BLOCK_SIZE == 0 && |block| == BLOCK_SIZE
      modifies this`res, this`pos, this`msg
      ensures Valid() && msg == old(msg) + block && |msg| % BLOCK_SIZE == 0
    {
      assert msg[..Whole()] == msg;
      BlockTaken(tigerCompress, res, msg, block);
      Advance(|msg|, BLOCK_SIZE);
      StillWhole(|msg|);
      hide Fold;
      res := tigerCompress(block, res);
      pos := (pos + BLOCK_SIZE) % WORD;
      msg := msg + block;
      assert msg[..Whole()] == msg && msg[Whole()..] == [];
    }

    /** Less than a block, left in the buffer. */
    method KeepRest(str: seq<Byte>)
      requires Valid() && |str| < BLOCK_SIZE && (str != [] ==> |msg| % BLOCK_SIZE == 0)
      modifies this`pos, this`msg, tmp
      ensures Valid() && msg == old(msg) + str
    {
      if str == [] {
        assert msg + str == msg;
        return;
      }
      ghost var was := msg;
      assert was[..Whole()] == was;
      CopyTo(0, str);
      pos := (pos + |str|) % WORD;
      Advance(|msg|, |str|);
      msg := msg + str;
      NotRounded(|was|, |str|);
      assert msg[..Whole()] == was && msg[Whole()..] == str;
      assert tmp[..|str|] == str;
    }

    /** The loop over whole blocks, and the rest into the buffer. */
    method WholeBlocks(ghost all: seq<Byte>, data: seq<Byte>)
      requires Valid() && all == msg + data && (data != [] ==> |msg| % BLOCK_SIZE == 0)
      modifies this`res, this`pos, this`msg, tmp
      ensures Valid() && msg == all
    {
      var str := data;
      while |str| >= BLOCK_SIZE
        invariant Valid() && all == msg + str && (str != [] ==> |msg| % BLOCK_SIZE == 0)
        decreases |str|
      {
        assert msg + str == msg + str[..BLOCK_SIZE] + str[BLOCK_SIZE..];
        TakeBlock(str[..BLOCK_SIZE]);
        str := str[BLOCK_SIZE..];
      }
      KeepRest(str);
    }

    /** `finalize`: the digest of everything hashed. */
    method Finalize() returns (r: State)
      requires Valid()
      modifies this`res, tmp
      ensures r == Digest(tigerCompress, msg)
      ensures r == Fold(tigerCompress, State(0x0123456789ABCDEF, 0xFEDCBA9876543210, 0xF096A5B4C3B2E187), Padded(msg))
    {
      var tmppos := pos % BLOCK_SIZE;
      assert tmppos == |msg| % BLOCK_SIZE by { SmallMod(|msg|); }
      ghost var whole := Whole();
      ghost var tail := msg[whole..];
      var bitLength := LittleEndian(pos * 8 % WORD, 8);
      assert pos * 8 % WORD == |msg| * 8 % WORD by { BitLength(|msg|); }
      ghost var f := tigerCompress;
      CopyTo(tmppos, [1]);
      tmppos := tmppos + 1;
      assert tmp[..tmppos] == tail + [1];
      if tmppos > BLOCK_SIZE - 8 {
        CopyTo(tmppos, Zeros(BLOCK_SIZE - tmppos));
        assert tmp[..] == tail + [1] + Zeros(BLOCK_SIZE - tmppos);
        ghost var first := tmp[..];
        FoldBlock(f, res, first);
        res := tigerCompress(tmp[..], res);
        CopyTo(0, Zeros(BLOCK_SIZE));
        CopyTo(56, bitLength);
        assert tmp[..] == Zeros(56) + bitLength;
        TwoBlocks(msg, whole, |msg| % BLOCK_SIZE, first, tmp[..], bitLength);
        WholeMod(|msg|);
        assert Padded(msg) == msg[..whole] + (first + tmp[..]);
        FoldAppend(f, INITIAL, msg[..whole], first + tmp[..]);
        FoldAppend(f, Fold(f, INITIAL, msg[..whole]), first, tmp[..]);
      } else {
        CopyTo(tmppos, Zeros(BLOCK_SIZE - tmppos - 8));
        CopyTo(56, bitLength);
        assert tmp[..] == tail + [1] + Zeros(BLOCK_SIZE - tmppos - 8) + bitLength;
        OneBlock(msg, whole, |msg| % BLOCK_SIZE, tmp[..], bitLength);
        WholeMod(|msg|);
        assert Padded(msg) == msg[..whole] + tmp[..];
        FoldAppend(f, INITIAL, msg[..whole], tmp[..]);
      }
      FoldBlock(f, res, tmp[..]);
      res := tigerCompress(tmp[..], res);
      r := res;
    }
  }

  /** Hashing a message in pieces is hashing the message, however it is cut. */
  method HashChunks(f: Compress, chunks: seq<seq<Byte>>) returns (r: State)
    ensures r == Digest(f, Join(chunks))
  {
    var t := new TigerHash(f);
    var i := 0;
    while i < |chunks|
      invariant 0 <= i <= |chunks| && t.Valid() && t.msg == Join(chunks[..i]) && t.tigerCompress == f && fresh(t) && fresh(t.tmp)
    {
      assert chunks[..i + 1][..i] == chunks[..i];
      t.Update(chunks[i]);
      i := i + 1;
    }
    assert chunks[..i] == chunks;
    r := t.Finalize();
  }

  lemma SmallMod(n: nat)
    ensures n % WORD % BLOCK_SIZE == n % BLOCK_SIZE
  {
  }

  lemma Advance(n: nat, k: nat)
    ensures (n % WORD + k) % WORD == (n + k) % WORD
  {
  }

  lemma BitLength(n: nat)
    ensures n % WORD * 8 % WORD == n * 8 % WORD
  {
  }

  lemma Rounded(n: nat, k: nat)
    requires n % BLOCK_SIZE + k == BLOCK_SIZE
    ensures (n + k) % BLOCK_SIZE == 0
  {
  }

  lemma NotRounded(n: nat, k: nat)
    requires n % BLOCK_SIZE + k < BLOCK_SIZE
    ensures (n + k) % BLOCK_SIZE == n % BLOCK_SIZE + k
  {
  }

  lemma ZeroCountIs(n: nat)
    ensures n % BLOCK_SIZE <= 55 ==> ZeroCount(n) == 55 - n % BLOCK_SIZE
    ensures n % BLOCK_SIZE > 55 ==> ZeroCount(n) == 119 - n % BLOCK_SIZE
  {
    var r := n % BLOCK_SIZE;
    assert (n + 9) % BLOCK_SIZE == (r + 9) % BLOCK_SIZE;
  }

  lemma WholeMod(n: nat)
    ensures (n - n % BLOCK_SIZE) % BLOCK_SIZE == 0
  {
  }

  /** The padding when the length still fits in the block of the last bytes. */
  lemma OneBlock(msg: seq<Byte>, whole: nat, r: nat, last: seq<Byte>, len: seq<Byte>)
    requires r == |msg| % BLOCK_SIZE && whole == |msg| - r && r + 1 <= BLOCK_SIZE - 8 && |len| == 8
    requires last == msg[whole..] + [1] + Zeros(BLOCK_SIZE - (r + 1) - 8) + len
    ensures msg + [1] + Zeros(ZeroCount(|msg|)) + len == msg[..whole] + last && |last| == BLOCK_SIZE
  {
    ZeroCountIs(|msg|);
    var zeros := Zeros(ZeroCount(|msg|));
    assert |msg[whole..]| == r;
    hide ZeroCount, Zeros;
    Regroup(msg, whole, zeros, len);
  }

  lemma Regroup(msg: seq<Byte>, whole: nat, zeros: seq<Byte>, len: seq<Byte>)
    requires whole <= |msg|
    ensures msg + [1] + zeros + len == msg[..whole] + (msg[whole..] + [1] + zeros + len)
  {
  }

  /** The padding when it does not. */
  lemma TwoBlocks(msg: seq<Byte>, whole: nat, r: nat, first: seq<Byte>, last: seq<Byte>, len: seq<Byte>)
    requires r == |msg| % BLOCK_SIZE && whole == |msg| - r && r + 1 > BLOCK_SIZE - 8 && |len| == 8
    requires first == msg[whole..] + [1] + Zeros(BLOCK_SIZE - (r + 1)) && last == Zeros(56) + len
    ensures msg + [1] + Zeros(ZeroCount(|msg|)) + len == msg[..whole] + (first + last)
    ensures |first| == BLOCK_SIZE == |last|
  {
    var k := BLOCK_SIZE - (r + 1);
    ZeroCountIs(|msg|);
    assert Zeros(k + 56) == Zeros(k) + Zeros(56);
    assert |msg[whole..]| == r;
    var z1, z2 := Zeros(k), Zeros(56);
    assert Zeros(ZeroCount(|msg|)) == z1 + z2;
    hide ZeroCount, Zeros;
    Regroup(msg, whole, z1 + z2, len);
    assert msg[whole..] + [1] + (z1 + z2) + len == first + last;
  }

  lemma TailGrows(msg: seq<Byte>, more: seq<Byte>, whole: nat)
    requires whole <= |msg|
    ensures (msg + more)[..whole] == msg[..whole] && (msg + more)[whole..] == msg[whole..] + more
  {
  }
}
