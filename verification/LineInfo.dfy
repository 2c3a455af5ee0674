/** Compressed line information: lcode.c writes, for each instruction, the difference from the line before in one byte,
    with an absolute line every now and then; ldebug.c reads it back. */
module LineInfo {
  const MAXIWTHABS := 128
  const LIMLINEDIFF := 128
  const ABSLINEINFO := -128

  datatype AbsLineInfo = AbsLineInfo(pc: nat, line: int)

  /** The line information of a function. */
  datatype Proto = Proto(linedefined: int, lineinfo: seq<int>, abslineinfo: seq<AbsLineInfo>)

  /** The line that a relative entry at `pc` is relative to. */
  function Before(linedefined: int, lines: seq<int>, pc: nat): int
    requires pc <= |lines|
  {
    if pc == 0 then linedefined else lines[pc - 1]
  }

  /** Absolute entries are in order, stand exactly where a byte says so, and hold the line; every other byte holds the
      difference from the line before. */
  ghost predicate Encodes(p: Proto, lines: seq<int>) {
    && |p.lineinfo| == |lines|
    && (forall i, j :: 0 <= i < j < |p.abslineinfo| ==> p.abslineinfo[i].pc < p.abslineinfo[j].pc)
    && (forall i :: 0 <= i < |p.abslineinfo| ==> AbsHolds(p, lines, i))
    && (forall pc :: 0 <= pc < |lines| ==> ByteHolds(p, lines, pc))
  }

  ghost predicate AbsHolds(p: Proto, lines: seq<int>, i: nat)
    requires i < |p.abslineinfo| && |p.lineinfo| == |lines|
  {
    var a := p.abslineinfo[i];
    a.pc < |lines| && a.line == lines[a.pc] && p.lineinfo[a.pc] == -128
  }

  ghost predicate ByteHolds(p: Proto, lines: seq<int>, pc: nat)
    requires pc < |lines| == |p.lineinfo|
  {
    if p.lineinfo[pc] == -128 then exists i :: 0 <= i < |p.abslineinfo| && p.abslineinfo[i].pc == pc
    else p.lineinfo[pc] == lines[pc] - Before(p.linedefined, lines, pc) && -128 < p.lineinfo[pc] < 128
  }

  /** Where the counting of `iwthabs` begins: the last absolute entry, or the first instruction. */
  function LastAbs(p: Proto): nat {
    if p.abslineinfo == [] then 0 else p.abslineinfo[|p.abslineinfo| - 1].pc
  }

  /** Absolute entries are at most MAXIWTHABS apart, so entry `i` is no later than this. */
  ghost predicate Spaced(p: Proto) {
    forall i :: 0 <= i < |p.abslineinfo| ==> p.abslineinfo[i].pc <= 128 * (i + 1)
  }

  class LineState {
    const linedefined: int
    var lineinfo: seq<int>
    var abslineinfo: seq<AbsLineInfo>
    var previousline: int
    var iwthabs: nat
    /** The line last recorded for each instruction. */
    ghost var lines: seq<int>

    constructor (linedefined: int)
      ensures Valid(false) && lines == [] && this.linedefined == linedefined
    {
      this.linedefined := linedefined;
      lineinfo, abslineinfo, previousline, iwthabs, lines := [], [], linedefined, 0, [];
    }

    function Info(): Proto
      reads this
    {
      Proto(linedefined, lineinfo, abslineinfo)
    }

    /** The counter says how far the last absolute entry is. After an absolute entry has been removed it is above its
        maximum instead, and `previousline` cannot be relied on. */
    ghost predicate Valid(stale: bool)
      reads this
    {
      && Encodes(Info(), lines) && Spaced(Info()) && |lines| <= MAXIWTHABS * (|abslineinfo| + 1)
      && if stale then iwthabs == MAXIWTHABS + 1
         else previousline == Before(linedefined, lines, |lines|)
              && iwthabs == |lines| - LastAbs(Info()) && iwthabs <= MAXIWTHABS
    }

    /** `savelineinfo` for the instruction just added. */
    method SaveLineInfo(line: int, ghost stale: bool)
      requires Valid(stale)
      modifies this
      ensures Valid(false) && lines == old(lines) + [line]
      ensures stale ==> |abslineinfo| == |old(abslineinfo)| + 1
    {
      var linedif := line - previousline;
      var pc := |lineinfo|;
      var absolute := linedif <= -LIMLINEDIFF || linedif >= LIMLINEDIFF;
      if !absolute {
        absolute := iwthabs >= MAXIWTHABS;
        iwthabs := iwthabs + 1;
      }
      ghost var was := Info();
      if absolute {
        abslineinfo := abslineinfo + [AbsLineInfo(pc, line)];
        linedif := ABSLINEINFO;
        iwthabs := 1;
      }
      lineinfo := lineinfo + [linedif];
      previousline := line;
      lines := lines + [line];
      Extended(was, old(lines), Info(), line);
    }

    /** `removelastlineinfo` */
    method RemoveLastLineInfo() returns (ghost stale: bool)
      requires Valid(false) && lines != []
      modifies this
      ensures Valid(stale) && lines == old(lines)[..|old(lines)| - 1]
      ensures stale <==> old(lineinfo)[|old(lines)| - 1] == ABSLINEINFO
    {
      ghost var was := Info();
      Shortened(was, lines);
      LastEntry(was, lines);
      hide Encodes;
      var pc := |lineinfo| - 1;
      stale := lineinfo[pc] == ABSLINEINFO;
      if lineinfo[pc] != ABSLINEINFO {
        previousline := previousline - lineinfo[pc];
        iwthabs := iwthabs - 1;
      } else {
        abslineinfo := abslineinfo[..|abslineinfo| - 1];
        iwthabs := MAXIWTHABS + 1;
      }
      lineinfo := lineinfo[..pc];
      lines := lines[..pc];
      assert forall i :: 0 <= i < |abslineinfo| ==> abslineinfo[i] == was.abslineinfo[i];
    }

    /** `luaK_code`, as far as lines are concerned. */
    method Code(line: int)
      requires Valid(false)
      modifies this
      ensures Valid(false) && lines == old(lines) + [line]
    {
      SaveLineInfo(line, false);
    }

    /** `luaK_fixline` */
    method FixLine(line: int)
      requires Valid(false) && lines != []
      modifies this
      ensures Valid(false) && lines == old(lines)[|old(lines)| - 1 := line]
    {
      ghost var stale := RemoveLastLineInfo();
      SaveLineInfo(line, stale);
    }
  }

  /** An entry added at the end, absolute or relative. */
  lemma Extended(p: Proto, lines: seq<int>, p': Proto, line: int)
    requires Encodes(p, lines) && p'.linedefined == p.linedefined && |p'.lineinfo| == |lines| + 1
    requires p'.lineinfo[..|lines|] == p.lineinfo
    requires var d := p'.lineinfo[|lines|];
             if d == ABSLINEINFO then p'.abslineinfo == p.abslineinfo + [AbsLineInfo(|lines|, line)]
             else p'.abslineinfo == p.abslineinfo && d == line - Before(p.linedefined, lines, |lines|) && -LIMLINEDIFF < d < LIMLINEDIFF
    ensures Encodes(p', lines + [line])
  {
    var lines' := lines + [line];
    assert forall i :: 0 <= i < |lines| ==> p'.lineinfo[i] == p'.lineinfo[..|lines|][i] == p.lineinfo[i];
    forall i | 0 <= i < |p'.abslineinfo| ensures AbsHolds(p', lines', i) {
      if i < |p.abslineinfo| {
        assert AbsHolds(p, lines, i);
      }
    }
    forall i, j | 0 <= i < j < |p'.abslineinfo| ensures p'.abslineinfo[i].pc < p'.abslineinfo[j].pc {
      assert AbsHolds(p, lines, i);
    }
    forall pc | 0 <= pc < |lines'| ensures ByteHolds(p', lines', pc) {
      if pc < |lines| {
        assert ByteHolds(p, lines, pc);
        if p.lineinfo[pc] == ABSLINEINFO {
          var i :| 0 <= i < |p.abslineinfo| && p.abslineinfo[i].pc == pc;
          assert p'.abslineinfo[i].pc == pc;
        }
      } else if p'.lineinfo[pc] == ABSLINEINFO {
        assert p'.abslineinfo[|p.abslineinfo|].pc == pc;
      }
    }
  }

  /** The last byte, and where the last absolute entry is. */
  lemma LastEntry(p: Proto, lines: seq<int>)
    requires Encodes(p, lines) && lines != []
    ensures var n := |lines| - 1;
            && |p.lineinfo| == |lines| && LastAbs(p) <= n
            && (p.lineinfo[n] != ABSLINEINFO ==> p.lineinfo[n] == lines[n] - Before(p.linedefined, lines, n))
  {
    assert ByteHolds(p, lines, |lines| - 1);
    if p.abslineinfo != [] { assert AbsHolds(p, lines, |p.abslineinfo| - 1); }
  }

  /** The last byte tells whether the last absolute entry is for the last instruction. */
  lemma LastMarked(p: Proto, lines: seq<int>)
    requires Encodes(p, lines) && lines != []
    ensures var n := |lines| - 1; var k := |p.abslineinfo|;
            && |p.lineinfo| == |lines| && (p.lineinfo[n] == ABSLINEINFO <==> k > 0 && LastAbs(p) == n)
            && forall i :: 0 <= i < (if p.lineinfo[n] == ABSLINEINFO then k - 1 else k) ==> p.abslineinfo[i].pc < n
  {
    var n, k := |lines| - 1, |p.abslineinfo|;
    assert ByteHolds(p, lines, n);
    if k > 0 { assert AbsHolds(p, lines, k - 1); }
    forall i | 0 <= i < (if p.lineinfo[n] == ABSLINEINFO then k - 1 else k) ensures p.abslineinfo[i].pc < n {
      assert AbsHolds(p, lines, i);
    }
  }

  /** The table without its last entry, and without its absolute entry if it has one. */
  function Less(p: Proto): Proto
    requires p.lineinfo != []
  {
    var n, k := |p.lineinfo| - 1, |p.abslineinfo|;
    Proto(p.linedefined, p.lineinfo[..n], if p.lineinfo[n] == ABSLINEINFO && k > 0 then p.abslineinfo[..k - 1] else p.abslineinfo)
  }

  /** The last entry taken away, with its absolute entry if it has one. */
  lemma Shortened(p: Proto, lines: seq<int>)
    requires Encodes(p, lines) && lines != []
    ensures var n := |lines| - 1; var k := |p.abslineinfo|;
            && |p.lineinfo| == |lines| && (p.lineinfo[n] == ABSLINEINFO <==> k > 0 && LastAbs(p) == n)
            && Encodes(Less(p), lines[..n])
  {
    var n, k := |lines| - 1, |p.abslineinfo|;
    var p' := Less(p);
    LastMarked(p, lines);
    forall i | 0 <= i < |p'.abslineinfo| ensures AbsHolds(p', lines[..n], i) {
      assert AbsHolds(p, lines, i);
    }
    forall pc | 0 <= pc < n ensures ByteHolds(p', lines[..n], pc) {
      assert ByteHolds(p, lines, pc);
      if p.lineinfo[pc] == ABSLINEINFO {
        var i :| 0 <= i < k && p.abslineinfo[i].pc == pc;
        assert i < |p'.abslineinfo| && p'.abslineinfo[i].pc == pc;
      }
    }
  }

  // ----- reading -----

  /** What a finished function holds. */
  ghost predicate Readable(p: Proto, lines: seq<int>) {
    Encodes(p, lines) && Spaced(p) && |lines| <= MAXIWTHABS * (|p.abslineinfo| + 1)
  }

  /** Between two operations the information is that of a finished function. */
  lemma FinishedReadable(fs: LineState)
    requires fs.Valid(false)
    ensures Readable(fs.Info(), fs.lines)
  {
  }

  /** The estimate of `getbaseline` is never too high. */
  lemma EstimateLow(p: Proto, lines: seq<int>, pc: nat)
    requires Readable(p, lines) && pc < |lines|
    ensures var i := pc / MAXIWTHABS - 1; i < 0 || (i < |p.abslineinfo| && p.abslineinfo[i].pc <= pc)
  {
    var i := pc / MAXIWTHABS - 1;
    assert MAXIWTHABS * (i + 1) <= pc;
  }

  /** `getbaseline`: the last absolute entry that is not after `pc`, or the start of the function. */
  method GetBaseLine(p: Proto, pc: nat, ghost lines: seq<int>) returns (line: int, basepc: int)
    requires Readable(p, lines) && pc < |lines|
    ensures -1 <= basepc <= pc && line == (if basepc < 0 then p.linedefined else lines[basepc])
    ensures forall k :: basepc < k <= pc ==> p.lineinfo[k] != ABSLINEINFO
  {
    if p.abslineinfo == [] || pc < p.abslineinfo[0].pc {
      forall k | 0 <= k <= pc ensures p.lineinfo[k] != ABSLINEINFO {
        assert ByteHolds(p, lines, k);
      }
      return p.linedefined, -1;
    }
    var i := pc / MAXIWTHABS - 1;
    EstimateLow(p, lines, pc);
    while i + 1 < |p.abslineinfo| && pc >= p.abslineinfo[i + 1].pc
      invariant -1 <= i < |p.abslineinfo| && (i >= 0 ==> p.abslineinfo[i].pc <= pc)
    {
      i := i + 1;
    }
    assert AbsHolds(p, lines, i);
    basepc, line := p.abslineinfo[i].pc, p.abslineinfo[i].line;
    forall k | basepc < k <= pc ensures p.lineinfo[k] != ABSLINEINFO {
      assert ByteHolds(p, lines, k);
    }
  }

  /** A function stripped of its line information has no bytes, and a finished one has a byte for each instruction. */
  ghost predicate Known(p: Proto, lines: seq<int>, pc: nat) {
    p.lineinfo == [] || (Readable(p, lines) && pc < |lines|)
  }

  /** `luaG_getfuncline`: the line last recorded for the instruction, or -1 when none is kept. */
  method GetFuncLine(p: Proto, pc: nat, ghost lines: seq<int>) returns (line: int)
    requires Known(p, lines, pc)
    ensures line == if p.lineinfo == [] then -1 else lines[pc]
  {
    if p.lineinfo == [] {
      return -1;
    }
    var basepc;
    line, basepc := GetBaseLine(p, pc, lines);
    while basepc < pc
      invariant -1 <= basepc <= pc && line == (if basepc < 0 then p.linedefined else lines[basepc])
      invariant forall k :: basepc < k <= pc ==> p.lineinfo[k] != ABSLINEINFO
    {
      basepc := basepc + 1;
      assert ByteHolds(p, lines, basepc);
      line := line + p.lineinfo[basepc];
    }
  }

  /** `changedline`: whether the two instructions are on different lines, as far as lines are known. */
  method ChangedLine(p: Proto, oldpc: nat, newpc: nat, ghost lines: seq<int>) returns (changed: bool)
    requires Known(p, lines, newpc) && oldpc < newpc
    ensures changed <==> p.lineinfo != [] && lines[oldpc] != lines[newpc]
  {
    if p.lineinfo == [] {
      return false;
    }
    if newpc - oldpc < MAXIWTHABS / 2 {
      var delta := 0;
      var pc := oldpc;
      while pc < newpc && p.lineinfo[pc + 1] != ABSLINEINFO
        invariant oldpc <= pc <= newpc && delta == lines[pc] - lines[oldpc]
      {
        pc := pc + 1;
        assert ByteHolds(p, lines, pc);
        delta := delta + p.lineinfo[pc];
      }
      if pc == newpc {
        return delta != 0;
      }
    }
    var a := GetFuncLine(p, oldpc, lines);
    var b := GetFuncLine(p, newpc, lines);
    changed := a != b;
  }

  // ----- whole compilations -----

  datatype Op = Emit(line: int) | Fix(line: int) | Replace(line: int)

  /** The line each instruction should have after some emissions, corrections and replacements. */
  function Expected(ops: seq<Op>): seq<int> {
    if ops == [] then []
    else
      var before := Expected(ops[..|ops| - 1]);
      var op := ops[|ops| - 1];
      if op.Emit? || before == [] then before + [op.line] else before[|before| - 1 := op.line]
  }

  /** After any of them, every instruction's line can be read back. A correction needs an instruction to correct. */
  method Compile(linedefined: int, ops: seq<Op>) returns (p: Proto)
    requires forall i :: 0 <= i < |ops| && !ops[i].Emit? ==> Expected(ops[..i]) != []
    ensures p.linedefined == linedefined && Readable(p, Expected(ops))
  {
    var fs := new LineState(linedefined);
    var i := 0;
    while i < |ops|
      invariant 0 <= i <= |ops| && fs.Valid(false) && fs.lines == Expected(ops[..i])
      invariant fresh(fs)
    {
      assert ops[..i + 1][..i] == ops[..i];
      match ops[i] {
        case Emit(line) => fs.Code(line);
        case Fix(line) => fs.FixLine(line);
        case Replace(line) =>
          // `removelastinstruction`, and the instruction that takes its place
          ghost var stale := fs.RemoveLastLineInfo();
          fs.SaveLineInfo(line, stale);
      }
      i := i + 1;
    }
    assert ops[..i] == ops;
    hide Readable;
    FinishedReadable(fs);
    p := fs.Info();
  }
}
