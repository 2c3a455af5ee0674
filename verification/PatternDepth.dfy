/** The limit on nested calls of the matcher: the outcomes of a pattern, in the order backtracking finds them, when only so
    many calls may be inside each other. Where one more would be needed, the outcome is the error "pattern too complex". */
module PatternDepth {
  import opened Pattern

  /** The outcomes from `p` on inside a call of `match` that may nest `d` more. Only captures and the repetitions of a class
      that accepts the next character nest; everything else goes on in the same call. */
  function Inside(d: nat, src: string, pat: string, s: nat, p: nat, caps: seq<Capture>): (r: seq<Outcome>)
    requires s <= |src| && p <= |pat| && CapsOk(caps, s)
    decreases |pat| - p, 0, 0
  {
    var item := ItemAt(pat, p);
    match item
    case End => [Match(s, caps)]
    case Open(position, next) =>
      if |caps| == LUA_MAXCAPTURES then [Error(TooManyCaptures)]
      else Call(d, src, pat, s, next, caps + [Capture(s, if position then CAP_POSITION else CAP_UNFINISHED)])
    case Close(next) =>
      var l := ToClose(caps);
      if l == |caps| then [Error(InvalidPatternCapture)]
      else Call(d, src, pat, s, next, caps[l := Capture(caps[l].init, s - caps[l].init)])
    case Anchor => if s == |src| then [Match(s, caps)] else []
    case Balance(next) =>
      var e := MatchBalance(src, s, pat[p + 2], pat[p + 3]);
      if e == 0 then [] else Inside(d, src, pat, e, next, caps)
    case Frontier(cls, next) => if AtFrontier(src, pat, s, cls, next) then Inside(d, src, pat, s, next, caps) else []
    case Back(digit, next) =>
      if !ValidIndex(caps, digit) then [Error(InvalidCaptureIndex)]
      else
        var cap := caps[(digit - '1') as int];
        if Repeats(src, s, cap) then Inside(d, src, pat, s + cap.len, next, caps) else []
    case Single(ep, suffix, next) =>
      var n := MaxRun(src, pat, s, p, ep);
      if n == 0 then (if suffix.Once? || suffix.Plus? then [] else Inside(d, src, pat, s, next, caps))
      else
        (match suffix
         case Once => Inside(d, src, pat, s + 1, next, caps)
         case Optional => Call(d, src, pat, s + 1, next, caps) + Inside(d, src, pat, s, next, caps)
         case Star => LongestCalls(d, src, pat, s, next, caps, 0, n)
         case Plus => LongestCalls(d, src, pat, s, next, caps, 1, n)
         case Lazy => ShortestCalls(d, src, pat, s, next, caps, 0, n))
    case Wrong(failure) => [Error(failure)]
  }

  /** The outcomes of a call of `match` where `m` calls may be inside each other. */
  function Call(m: nat, src: string, pat: string, s: nat, p: nat, caps: seq<Capture>): (r: seq<Outcome>)
    requires s <= |src| && p <= |pat| && CapsOk(caps, s)
    decreases |pat| - p, 1, 0
  {
    if m == 0 then [Error(TooComplex)] else Inside(m - 1, src, pat, s, p, caps)
  }

  function LongestCalls(d: nat, src: string, pat: string, s: nat, next: nat, caps: seq<Capture>, lo: nat, hi: nat): seq<Outcome>
    requires lo <= hi && s + hi <= |src| && next <= |pat| && CapsOk(caps, s)
    decreases |pat| - next, 2, hi
  {
    Call(d, src, pat, s + hi, next, caps) + (if hi == lo then [] else LongestCalls(d, src, pat, s, next, caps, lo, hi - 1))
  }

  function ShortestCalls(d: nat, src: string, pat: string, s: nat, next: nat, caps: seq<Capture>, lo: nat, hi: nat): seq<Outcome>
    requires lo <= hi && s + hi <= |src| && next <= |pat| && CapsOk(caps, s)
    decreases |pat| - next, 2, hi - lo
  {
    Call(d, src, pat, s + lo, next, caps) + (if hi == lo then [] else ShortestCalls(d, src, pat, s, next, caps, lo + 1, hi))
  }

  /** The search comes to a missing call before it comes to anything else. */
  predicate TooDeep(m: nat, src: string, pat: string, s: nat, p: nat, caps: seq<Capture>)
    requires s <= |src| && p <= |pat| && CapsOk(caps, s)
  {
    var a := Call(m, src, pat, s, p, caps);
    a != [] && a[0] == Error(TooComplex)
  }

  // ----- deep enough -----

  /** With as many calls as the pattern can ever nest, the limit is not there. */
  lemma {:induction false} InsideIsAll(d: nat, src: string, pat: string, s: nat, p: nat, caps: seq<Capture>)
    requires s <= |src| && p <= |pat| && CapsOk(caps, s) && Nesting(pat, p) <= d
    ensures Inside(d, src, pat, s, p, caps) == All(src, pat, s, p, caps)
    decreases |pat| - p, 0, 0
  {
    hide ClassEnd, SingleMatch, MatchBalance, AtFrontier, Repeats, ToClose, SingleAt, MaxRun, ItemAt;
    match ItemAt(pat, p)
    case Open(position, next) =>
      if |caps| < LUA_MAXCAPTURES {
        CallIsAll(d, src, pat, s, next, caps + [Capture(s, if position then CAP_POSITION else CAP_UNFINISHED)]);
      }
    case Close(next) =>
      var l := ToClose(caps);
      if l < |caps| { CallIsAll(d, src, pat, s, next, caps[l := Capture(caps[l].init, s - caps[l].init)]); }
    case Balance(next) =>
      var e := MatchBalance(src, s, pat[p + 2], pat[p + 3]);
      if e != 0 { InsideIsAll(d, src, pat, e, next, caps); }
    case Frontier(_, next) => InsideIsAll(d, src, pat, s, next, caps);
    case Back(digit, next) =>
      if ValidIndex(caps, digit) && Repeats(src, s, caps[(digit - '1') as int]) {
        BackIsAll(d, src, pat, s, caps, digit, next);
      }
    case Single(_, _, _) => SingleIsAll(d, src, pat, s, p, caps);
    case _ =>
  }

  lemma {:induction false} BackIsAll(d: nat, src: string, pat: string, s: nat, caps: seq<Capture>, digit: char, next: nat)
    requires s <= |src| && next <= |pat| && CapsOk(caps, s) && Nesting(pat, next) <= d
    requires ValidIndex(caps, digit) && Repeats(src, s, caps[(digit - '1') as int])
    ensures var e := s + caps[(digit - '1') as int].len;
            s <= e <= |src| && CapsOk(caps, e) && Inside(d, src, pat, e, next, caps) == All(src, pat, e, next, caps)
    decreases |pat| - next, 1, 0
  {
    InsideIsAll(d, src, pat, s + caps[(digit - '1') as int].len, next, caps);
  }

  lemma {:induction false} CallIsAll(m: nat, src: string, pat: string, s: nat, p: nat, caps: seq<Capture>)
    requires s <= |src| && p <= |pat| && CapsOk(caps, s) && Nesting(pat, p) < m
    ensures Call(m, src, pat, s, p, caps) == All(src, pat, s, p, caps)
    decreases |pat| - p, 1, 0
  {
    InsideIsAll(m - 1, src, pat, s, p, caps);
    hide Inside, All;
  }

  lemma {:induction false} SingleIsAll(d: nat, src: string, pat: string, s: nat, p: nat, caps: seq<Capture>)
    requires s <= |src| && p < |pat| && CapsOk(caps, s) && Nesting(pat, p) <= d && ItemAt(pat, p).Single?
    ensures Inside(d, src, pat, s, p, caps) == All(src, pat, s, p, caps)
    decreases |pat| - ItemAt(pat, p).next, 3, 0
  {
    hide ClassEnd, SingleMatch, SingleAt, MaxRun, ItemAt;
    var it := ItemAt(pat, p);
    var next := it.next;
    var n := MaxRun(src, pat, s, p, it.ep);
    InsideIsAll(d, src, pat, s, next, caps);
    if n == 0 {
      NoneTaken(src, pat, s, next, caps);
    } else if it.suffix.Once? {
      InsideIsAll(d, src, pat, s + 1, next, caps);
    } else {
      CallIsAll(d, src, pat, s + 1, next, caps);
      LongestIsAll(d, src, pat, s, next, caps, 0, n);
      LongestIsAll(d, src, pat, s, next, caps, 1, n);
      ShortestIsAll(d, src, pat, s, next, caps, 0, n);
      OneOrNone(src, pat, s, next, caps);
    }
  }

  lemma NoneTaken(src: string, pat: string, s: nat, next: nat, caps: seq<Capture>)
    requires s <= |src| && next <= |pat| && CapsOk(caps, s)
    ensures Longest(src, pat, s, next, caps, 0, 0) == All(src, pat, s, next, caps)
    ensures Shortest(src, pat, s, next, caps, 0, 0) == All(src, pat, s, next, caps)
  {
    hide All;
    assert s + 0 == s;
  }

  lemma OneOrNone(src: string, pat: string, s: nat, next: nat, caps: seq<Capture>)
    requires s < |src| && next <= |pat| && CapsOk(caps, s)
    ensures CapsOk(caps, s + 1)
    ensures Longest(src, pat, s, next, caps, 0, 1) == All(src, pat, s + 1, next, caps) + All(src, pat, s, next, caps)
  {
    NoneTaken(src, pat, s, next, caps);
    hide All;
  }

  lemma {:induction false} LongestIsAll(d: nat, src: string, pat: string, s: nat, next: nat, caps: seq<Capture>, lo: nat, hi: nat)
    requires lo <= hi && s + hi <= |src| && next <= |pat| && CapsOk(caps, s) && Nesting(pat, next) < d
    ensures LongestCalls(d, src, pat, s, next, caps, lo, hi) == Longest(src, pat, s, next, caps, lo, hi)
    decreases |pat| - next, 2, hi
  {
    CallIsAll(d, src, pat, s + hi, next, caps);
    hide Call, All;
    if hi > lo { LongestIsAll(d, src, pat, s, next, caps, lo, hi - 1); }
  }

  lemma {:induction false} ShortestIsAll(d: nat, src: string, pat: string, s: nat, next: nat, caps: seq<Capture>, lo: nat, hi: nat)
    requires lo <= hi && s + hi <= |src| && next <= |pat| && CapsOk(caps, s) && Nesting(pat, next) < d
    ensures ShortestCalls(d, src, pat, s, next, caps, lo, hi) == Shortest(src, pat, s, next, caps, lo, hi)
    decreases |pat| - next, 2, hi - lo
  {
    CallIsAll(d, src, pat, s + lo, next, caps);
    hide Call, All;
    if hi > lo { ShortestIsAll(d, src, pat, s, next, caps, lo + 1, hi); }
  }

  // ----- less deep -----

  /** The outcomes before the first place where a call was missing. */
  function Before(a: seq<Outcome>): (r: seq<Outcome>)
    ensures |r| <= |a| && (|r| == |a| ==> r == a)
  {
    if a == [] || a[0] == Error(TooComplex) then [] else [a[0]] + Before(a[1..])
  }

  /** `a` is `b`, or `b` cut short by a missing call. */
  ghost predicate Cut(a: seq<Outcome>, b: seq<Outcome>) {
    Before(a) <= b && (|Before(a)| == |a| ==> a == b)
  }

  lemma {:induction false} BeforeSum(a: seq<Outcome>, b: seq<Outcome>)
    ensures Before(a + b) == if |Before(a)| == |a| then a + Before(b) else Before(a)
    decreases |a|
  {
    if a == [] {
      assert a + b == b;
    } else {
      assert (a + b)[1..] == a[1..] + b;
      BeforeSum(a[1..], b);
    }
  }

  lemma CutSum(a: seq<Outcome>, b: seq<Outcome>, a': seq<Outcome>, b': seq<Outcome>)
    requires Cut(a, a') && Cut(b, b')
    ensures Cut(a + b, a' + b')
  {
    BeforeSum(a, b);
    hide Before;
  }

  lemma CutSame(a: seq<Outcome>)
    ensures Cut(a, a)
    decreases |a|
  {
    if a != [] && a[0] != Error(TooComplex) { CutSame(a[1..]); }
  }

  /** A lower limit changes nothing but to cut the outcomes short. */
  lemma {:induction false} InsideCut(d: nat, d': nat, src: string, pat: string, s: nat, p: nat, caps: seq<Capture>)
    requires s <= |src| && p <= |pat| && CapsOk(caps, s) && d <= d'
    ensures Cut(Inside(d, src, pat, s, p, caps), Inside(d', src, pat, s, p, caps))
    decreases |pat| - p, 0, 0
  {
    hide ClassEnd, SingleMatch, MatchBalance, AtFrontier, Repeats, ToClose, SingleAt, MaxRun, ItemAt, Cut;
    CutSame(Inside(d, src, pat, s, p, caps));
    match ItemAt(pat, p)
    case Open(position, next) =>
      if |caps| < LUA_MAXCAPTURES {
        CallCut(d, d', src, pat, s, next, caps + [Capture(s, if position then CAP_POSITION else CAP_UNFINISHED)]);
      }
    case Close(next) =>
      var l := ToClose(caps);
      if l < |caps| { CallCut(d, d', src, pat, s, next, caps[l := Capture(caps[l].init, s - caps[l].init)]); }
    case Balance(next) =>
      var e := MatchBalance(src, s, pat[p + 2], pat[p + 3]);
      if e != 0 { InsideCut(d, d', src, pat, e, next, caps); }
    case Frontier(_, next) => InsideCut(d, d', src, pat, s, next, caps);
    case Back(digit, next) =>
      if ValidIndex(caps, digit) && Repeats(src, s, caps[(digit - '1') as int]) {
        BackCut(d, d', src, pat, s, caps, digit, next);
      }
    case Single(_, _, _) => SingleCut(d, d', src, pat, s, p, caps);
    case _ =>
  }

  lemma {:induction false} BackCut(d: nat, d': nat, src: string, pat: string, s: nat, caps: seq<Capture>, digit: char, next: nat)
    requires s <= |src| && next <= |pat| && CapsOk(caps, s) && d <= d'
    requires ValidIndex(caps, digit) && Repeats(src, s, caps[(digit - '1') as int])
    ensures var e := s + caps[(digit - '1') as int].len;
            s <= e <= |src| && CapsOk(caps, e) && Cut(Inside(d, src, pat, e, next, caps), Inside(d', src, pat, e, next, caps))
    decreases |pat| - next, 1, 0
  {
    InsideCut(d, d', src, pat, s + caps[(digit - '1') as int].len, next, caps);
  }

  lemma {:induction false} CallCut(m: nat, m': nat, src: string, pat: string, s: nat, p: nat, caps: seq<Capture>)
    requires s <= |src| && p <= |pat| && CapsOk(caps, s) && m <= m'
    ensures Cut(Call(m, src, pat, s, p, caps), Call(m', src, pat, s, p, caps))
    decreases |pat| - p, 1, 0
  {
    if m > 0 { InsideCut(m - 1, m' - 1, src, pat, s, p, caps); }
    hide Inside;
  }

  lemma {:induction false} SingleCut(d: nat, d': nat, src: string, pat: string, s: nat, p: nat, caps: seq<Capture>)
    requires s <= |src| && p < |pat| && CapsOk(caps, s) && d <= d' && ItemAt(pat, p).Single?
    ensures Cut(Inside(d, src, pat, s, p, caps), Inside(d', src, pat, s, p, caps))
    decreases |pat| - ItemAt(pat, p).next, 3, 0
  {
    hide ClassEnd, SingleMatch, SingleAt, MaxRun, ItemAt, Cut;
    var it := ItemAt(pat, p);
    var next := it.next;
    var n := MaxRun(src, pat, s, p, it.ep);
    CutSame([]);
    InsideCut(d, d', src, pat, s, next, caps);
    if n > 0 {
      InsideCut(d, d', src, pat, s + 1, next, caps);
      CallCut(d, d', src, pat, s + 1, next, caps);
      CutSum(Call(d, src, pat, s + 1, next, caps), Inside(d, src, pat, s, next, caps),
             Call(d', src, pat, s + 1, next, caps), Inside(d', src, pat, s, next, caps));
      LongestCut(d, d', src, pat, s, next, caps, 0, n);
      LongestCut(d, d', src, pat, s, next, caps, 1, n);
      ShortestCut(d, d', src, pat, s, next, caps, 0, n);
    }
  }

  lemma {:induction false} LongestCut(d: nat, d': nat, src: string, pat: string, s: nat, next: nat, caps: seq<Capture>,
                                      lo: nat, hi: nat)
    requires lo <= hi && s + hi <= |src| && next <= |pat| && CapsOk(caps, s) && d <= d'
    ensures Cut(LongestCalls(d, src, pat, s, next, caps, lo, hi), LongestCalls(d', src, pat, s, next, caps, lo, hi))
    decreases |pat| - next, 2, hi
  {
    hide Call, Cut;
    CallCut(d, d', src, pat, s + hi, next, caps);
    var a, a' := Call(d, src, pat, s + hi, next, caps), Call(d', src, pat, s + hi, next, caps);
    if hi == lo {
      CutSame([]);
      CutSum(a, [], a', []);
    } else {
      LongestCut(d, d', src, pat, s, next, caps, lo, hi - 1);
      CutSum(a, LongestCalls(d, src, pat, s, next, caps, lo, hi - 1), a', LongestCalls(d', src, pat, s, next, caps, lo, hi - 1));
    }
  }

  lemma {:induction false} ShortestCut(d: nat, d': nat, src: string, pat: string, s: nat, next: nat, caps: seq<Capture>,
                                       lo: nat, hi: nat)
    requires lo <= hi && s + hi <= |src| && next <= |pat| && CapsOk(caps, s) && d <= d'
    ensures Cut(ShortestCalls(d, src, pat, s, next, caps, lo, hi), ShortestCalls(d', src, pat, s, next, caps, lo, hi))
    decreases |pat| - next, 2, hi - lo
  {
    hide Call, Cut;
    CallCut(d, d', src, pat, s + lo, next, caps);
    var a, a' := Call(d, src, pat, s + lo, next, caps), Call(d', src, pat, s + lo, next, caps);
    if hi == lo {
      CutSame([]);
      CutSum(a, [], a', []);
    } else {
      ShortestCut(d, d', src, pat, s, next, caps, lo + 1, hi);
      CutSum(a, ShortestCalls(d, src, pat, s, next, caps, lo + 1, hi), a', ShortestCalls(d', src, pat, s, next, caps, lo + 1, hi));
    }
  }

  /** Whatever the limit, the outcomes are those of the pattern, cut short where a call was missing; and none is missing
      when the limit is above what the pattern can nest. */
  lemma LimitOnlyCuts(m: nat, src: string, pat: string, s: nat, p: nat, caps: seq<Capture>)
    requires s <= |src| && p <= |pat| && CapsOk(caps, s)
    ensures Cut(Call(m, src, pat, s, p, caps), All(src, pat, s, p, caps))
    ensures m > Nesting(pat, p) ==> Call(m, src, pat, s, p, caps) == All(src, pat, s, p, caps)
  {
    hide Cut, Call, All, Nesting;
    var deep := m + Nesting(pat, p) + 1;
    CallIsAll(deep, src, pat, s, p, caps);
    CallCut(m, deep, src, pat, s, p, caps);
    if m > Nesting(pat, p) { CallIsAll(m, src, pat, s, p, caps); }
  }

  // ----- the error is only that of the limit -----

  lemma {:induction false} BracketFailure(pat: string, q: nat)
    requires q <= |pat|
    ensures BracketEnd(pat, q).Bad? ==> BracketEnd(pat, q).failure.MissingBracket?
    decreases |pat| - q
  {
    if q < |pat| { BracketFailure(pat, if pat[q] == '%' && q + 1 < |pat| then q + 2 else q + 1); }
  }

  lemma ClassFailure(pat: string, p: nat)
    requires p < |pat|
    ensures ClassEnd(pat, p).Bad? ==> !ClassEnd(pat, p).failure.TooComplex?
  {
    if pat[p] == '[' { BracketFailure(pat, if At(pat, p + 1) == '^' then p + 2 else p + 1); }
  }

  lemma ItemFailure(pat: string, p: nat)
    requires p <= |pat|
    ensures ItemAt(pat, p).Wrong? ==> !ItemAt(pat, p).failure.TooComplex?
  {
    if p < |pat| { ClassFailure(pat, p); }
    if p + 2 < |pat| { ClassFailure(pat, p + 2); }
    hide ClassEnd;
  }

  /** Without a limit no outcome is the error for too much nesting. */
  lemma {:induction false} AllFree(src: string, pat: string, s: nat, p: nat, caps: seq<Capture>)
    requires s <= |src| && p <= |pat| && CapsOk(caps, s)
    ensures Error(TooComplex) !in All(src, pat, s, p, caps)
    decreases |pat| - p, 0, 0
  {
    ItemFailure(pat, p);
    hide ClassEnd, SingleMatch, MatchBalance, AtFrontier, Repeats, ToClose, SingleAt, MaxRun, ItemAt;
    match ItemAt(pat, p)
    case Open(position, next) =>
      if |caps| < LUA_MAXCAPTURES {
        AllFree(src, pat, s, next, caps + [Capture(s, if position then CAP_POSITION else CAP_UNFINISHED)]);
      }
    case Close(next) =>
      var l := ToClose(caps);
      if l < |caps| { AllFree(src, pat, s, next, caps[l := Capture(caps[l].init, s - caps[l].init)]); }
    case Balance(next) =>
      var e := MatchBalance(src, s, pat[p + 2], pat[p + 3]);
      if e != 0 { AllFree(src, pat, e, next, caps); }
    case Frontier(_, next) => AllFree(src, pat, s, next, caps);
    case Back(digit, next) =>
      if ValidIndex(caps, digit) && Repeats(src, s, caps[(digit - '1') as int]) {
        AllFree(src, pat, s + caps[(digit - '1') as int].len, next, caps);
      }
    case Single(_, _, _) => SingleFree(src, pat, s, p, caps);
    case _ =>
  }

  lemma {:induction false} SingleFree(src: string, pat: string, s: nat, p: nat, caps: seq<Capture>)
    requires s <= |src| && p < |pat| && CapsOk(caps, s) && ItemAt(pat, p).Single?
    ensures Error(TooComplex) !in All(src, pat, s, p, caps)
    decreases |pat| - ItemAt(pat, p).next, 3, 0
  {
    hide ClassEnd, SingleMatch, SingleAt, MaxRun, ItemAt, Longest, Shortest;
    var it := ItemAt(pat, p);
    var n := MaxRun(src, pat, s, p, it.ep);
    if it.suffix.Once? {
      if n > 0 { AllFree(src, pat, s + 1, it.next, caps); }
    } else if it.suffix.Lazy? {
      ShortestFree(src, pat, s, it.next, caps, 0, n);
    } else {
      LongestFree(src, pat, s, it.next, caps, 0, n);
      LongestFree(src, pat, s, it.next, caps, 0, if n > 0 then 1 else 0);
      if n > 0 { LongestFree(src, pat, s, it.next, caps, 1, n); }
    }
  }

  lemma FreeSum(a: seq<Outcome>, b: seq<Outcome>)
    requires Error(TooComplex) !in a && Error(TooComplex) !in b
    ensures Error(TooComplex) !in a + b
  {
  }

  lemma {:induction false} LongestFree(src: string, pat: string, s: nat, next: nat, caps: seq<Capture>, lo: nat, hi: nat)
    requires lo <= hi && s + hi <= |src| && next <= |pat| && CapsOk(caps, s)
    ensures Error(TooComplex) !in Longest(src, pat, s, next, caps, lo, hi)
    decreases |pat| - next, 2, hi
  {
    AllFree(src, pat, s + hi, next, caps);
    hide All;
    if hi > lo {
      LongestFree(src, pat, s, next, caps, lo, hi - 1);
      FreeSum(All(src, pat, s + hi, next, caps), Longest(src, pat, s, next, caps, lo, hi - 1));
    }
  }

  lemma {:induction false} ShortestFree(src: string, pat: string, s: nat, next: nat, caps: seq<Capture>, lo: nat, hi: nat)
    requires lo <= hi && s + hi <= |src| && next <= |pat| && CapsOk(caps, s)
    ensures Error(TooComplex) !in Shortest(src, pat, s, next, caps, lo, hi)
    decreases |pat| - next, 2, hi - lo
  {
    AllFree(src, pat, s + lo, next, caps);
    hide All;
    if hi > lo {
      ShortestFree(src, pat, s, next, caps, lo + 1, hi);
      FreeSum(All(src, pat, s + lo, next, caps), Shortest(src, pat, s, next, caps, lo + 1, hi));
    }
  }
}
