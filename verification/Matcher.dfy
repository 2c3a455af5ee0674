/** The backtracking matcher of lstrlib.c: it updates the captures in place, undoes them when it has to try
    something else, and comes to the first outcome of the pattern. */
module Matcher {
  import opened Pattern
  import opened PatternDepth

  const MAXCCALLS := 200

  datatype Result = Fail | Found(end: nat) | Raised(failure: Failure)

  /** What the matcher has to return, and the captures it has to leave, for a list of outcomes. */
  ghost predicate Agrees(outcomes: seq<Outcome>, r: Result, before: seq<Capture>, after: seq<Capture>) {
    if outcomes == [] then r == Fail && after == before
    else if outcomes[0].Match? then r == Found(outcomes[0].end) && after == outcomes[0].caps
    else r == Raised(outcomes[0].failure)
  }

  lemma CapsLater(caps: seq<Capture>, s: nat, s': nat)
    requires CapsOk(caps, s) && s <= s'
    ensures CapsOk(caps, s')
  {
  }

  lemma CapsLaterAll(caps: seq<Capture>, s: nat)
    requires CapsOk(caps, s)
    ensures forall s' :: s <= s' ==> CapsOk(caps, s')
  {
  }

  /** Where an alternative that fails is followed by another. */
  lemma Alternatives(a: seq<Outcome>, b: seq<Outcome>, r: Result, before: seq<Capture>, after: seq<Capture>)
    requires Agrees(a, r, before, after)
    ensures if r == Fail then a + b == b && after == before && a == [] else Agrees(a + b, r, before, after)
  {
  }

  /** One more count tried, from the longest down. */
  lemma LongestTry(d: nat, src: string, pat: string, s: nat, next: nat, caps: seq<Capture>, i: nat, r: Result, after: seq<Capture>)
    requires s + i <= |src| && next <= |pat| && CapsOk(caps, s) && CapsOk(caps, s + i)
    requires Agrees(Call(d, src, pat, s + i, next, caps), r, caps, after)
    ensures var longest := LongestCalls(d, src, pat, s, next, caps, 0, i);
            if r == Fail && i > 0 then after == caps && longest == LongestCalls(d, src, pat, s, next, caps, 0, i - 1)
            else Agrees(longest, r, caps, after)
  {
    hide Call;
    var rest := if i == 0 then [] else LongestCalls(d, src, pat, s, next, caps, 0, i - 1);
    Alternatives(Call(d, src, pat, s + i, next, caps), rest, r, caps, after);
  }

  /** One more count tried, from the shortest up. */
  lemma ShortestTry(d: nat, src: string, pat: string, s: nat, next: nat, caps: seq<Capture>, i: nat, n: nat, r: Result,
                    after: seq<Capture>)
    requires i <= n && s + n <= |src| && next <= |pat| && CapsOk(caps, s) && CapsOk(caps, s + i)
    requires Agrees(Call(d, src, pat, s + i, next, caps), r, caps, after)
    ensures var shortest := ShortestCalls(d, src, pat, s, next, caps, i, n);
            if r == Fail && i < n then after == caps && shortest == ShortestCalls(d, src, pat, s, next, caps, i + 1, n)
            else Agrees(shortest, r, caps, after)
  {
    hide Call;
    var rest := if i == n then [] else ShortestCalls(d, src, pat, s, next, caps, i + 1, n);
    Alternatives(Call(d, src, pat, s + i, next, caps), rest, r, caps, after);
  }

  lemma NoOutcome(caps: seq<Capture>)
    ensures Agrees([], Fail, caps, caps)
  {
  }

  lemma LongestShift(d: nat, src: string, pat: string, s: nat, next: nat, caps: seq<Capture>, hi: nat)
    requires hi > 0 && s + hi <= |src| && next <= |pat| && CapsOk(caps, s)
    ensures CapsOk(caps, s + 1)
    ensures LongestCalls(d, src, pat, s, next, caps, 1, hi) == LongestCalls(d, src, pat, s + 1, next, caps, 0, hi - 1)
    decreases hi
  {
    hide Call;
    if hi > 1 {
      LongestShift(d, src, pat, s, next, caps, hi - 1);
    }
    assert s + hi == s + 1 + (hi - 1);
  }

  /** The outcomes of an escape, by its kind. */
  lemma InsideEscape(d: nat, src: string, pat: string, s: nat, p: nat, caps: seq<Capture>)
    requires s <= |src| && p < |pat| && CapsOk(caps, s)
    ensures var it := ItemAt(pat, p); var all := Inside(d, src, pat, s, p, caps);
            && (it.Wrong? ==> all == [Error(it.failure)])
            && (it.Balance? ==> var e := MatchBalance(src, s, pat[p + 2], pat[p + 3]);
                                all == if e == 0 then [] else Inside(d, src, pat, e, it.next, caps))
            && (it.Frontier? ==>
                  all == if AtFrontier(src, pat, s, it.cls, it.next) then Inside(d, src, pat, s, it.next, caps) else [])
            && (it.Back? && !ValidIndex(caps, it.digit) ==> all == [Error(InvalidCaptureIndex)])
            && (it.Back? && ValidIndex(caps, it.digit) ==>
                  var cap := caps[(it.digit - '1') as int];
                  all == if Repeats(src, s, cap) then Inside(d, src, pat, s + cap.len, it.next, caps) else [])
  {
  }

  /** The outcomes of a class and its suffix, by whether it accepts the next character. */
  lemma InsideSingle(d: nat, src: string, pat: string, s: nat, p: nat, caps: seq<Capture>)
    requires s <= |src| && p < |pat| && CapsOk(caps, s) && ItemAt(pat, p) == SingleAt(pat, p) && ItemAt(pat, p).Single?
    ensures var it := ItemAt(pat, p); var n := MaxRun(src, pat, s, p, it.ep); var next := it.next;
            && (n > 0 <==> SingleMatch(src, pat, s, p, it.ep))
            && Inside(d, src, pat, s, p, caps) ==
               (if n == 0 then (if it.suffix.Once? || it.suffix.Plus? then [] else Inside(d, src, pat, s, next, caps))
                else match it.suffix
                     case Once => Inside(d, src, pat, s + 1, next, caps)
                     case Optional => Call(d, src, pat, s + 1, next, caps) + Inside(d, src, pat, s, next, caps)
                     case Star => LongestCalls(d, src, pat, s, next, caps, 0, n)
                     case Plus => LongestCalls(d, src, pat, s + 1, next, caps, 0, MaxRun(src, pat, s + 1, p, it.ep))
                     case Lazy => ShortestCalls(d, src, pat, s, next, caps, 0, n))
  {
    var it := ItemAt(pat, p);
    var n := MaxRun(src, pat, s, p, it.ep);
    if n > 0 {
      assert MaxRun(src, pat, s, p, it.ep) == MaxRun(src, pat, s + 1, p, it.ep) + 1;
      LongestShift(d, src, pat, s, it.next, caps, n);
    }
    hide LongestCalls, ShortestCalls, Call;
  }

  /** A class that does not end is an error. */
  lemma BadItem(d: nat, src: string, pat: string, s: nat, p: nat, caps: seq<Capture>, failure: Failure)
    requires s <= |src| && p < |pat| && CapsOk(caps, s) && ItemAt(pat, p) == SingleAt(pat, p) && ClassEnd(pat, p) == Bad(failure)
    ensures Agrees(Inside(d, src, pat, s, p, caps), Raised(failure), caps, caps)
  {
  }

  /** What agrees with the outcomes under a limit agrees with all outcomes, unless the limit was in the way. */
  lemma AgreesWithAll(m: nat, src: string, pat: string, s: nat, p: nat, caps: seq<Capture>, r: Result, after: seq<Capture>)
    requires s <= |src| && p <= |pat| && CapsOk(caps, s) && Agrees(Call(m, src, pat, s, p, caps), r, caps, after)
    ensures r == Raised(TooComplex) <==> TooDeep(m, src, pat, s, p, caps)
    ensures r != Raised(TooComplex) ==> Agrees(All(src, pat, s, p, caps), r, caps, after)
    ensures r == Raised(TooComplex) ==> m <= Nesting(pat, p)
  {
    LimitOnlyCuts(m, src, pat, s, p, caps);
    AllFree(src, pat, s, p, caps);
    hide Call, All, Nesting, CapsOk;
  }

  /** The item a class and its suffix make. */
  lemma ItemIs(pat: string, p: nat, ep: nat)
    requires p < |pat| && ItemAt(pat, p) == SingleAt(pat, p) && ClassEnd(pat, p) == Ok(ep)
    ensures p < ep <= |pat| && (!SuffixOf(At(pat, ep)).Once? ==> ep < |pat|)
    ensures ItemAt(pat, p) == Single(ep, SuffixOf(At(pat, ep)), if SuffixOf(At(pat, ep)).Once? then ep else ep + 1)
  {
  }

  class MatchState {
    const src: string
    const pat: string
    const capture: array<Capture>
    var level: nat
    var matchdepth: nat

    /** `prepstate` */
    constructor (src: string, pat: string)
      ensures this.src == src && this.pat == pat && fresh(capture) && Valid(0) && caps == [] && matchdepth == MAXCCALLS
    {
      this.src, this.pat := src, pat;
      capture := new Capture[LUA_MAXCAPTURES](_ => Capture(0, 0));
      level, matchdepth, caps := 0, MAXCCALLS, [];
    }

    /** The captures in use; what lies above `level` is left over from attempts given up. */
    ghost var caps: seq<Capture>

    ghost predicate Linked()
      reads this, capture
    {
      capture.Length == LUA_MAXCAPTURES && level == |caps| <= LUA_MAXCAPTURES && capture[..level] == caps
    }

    ghost predicate Valid(s: nat)
      reads this, capture
    {
      Linked() && s <= |src| && CapsOk(caps, s)
    }

    /** `capture_to_close` */
    method CaptureToClose() returns (l: int)
      requires Linked()
      ensures l == if ToClose(caps) == level then -1 else ToClose(caps)
    {
      l := level - 1;
      while l >= 0 && capture[l].len != CAP_UNFINISHED
        invariant -1 <= l < level
        invariant forall i :: l < i < level ==> capture[i].len != CAP_UNFINISHED
      {
        l := l - 1;
      }
      var k := ToClose(caps);
      assert k < level ==> caps[k].len == CAP_UNFINISHED;
      assert l >= 0 ==> caps[l].len == CAP_UNFINISHED;
    }

    /** `classend` */
    method FindClassEnd(p: nat) returns (r: Parsed<nat>)
      requires p < |pat|
      ensures r == ClassEnd(pat, p)
    {
      var q := p + 1;
      if pat[p] == '%' {
        if q == |pat| {
          return Bad(EndsWithPercent);
        }
        return Ok(q + 1);
      } else if pat[p] == '[' {
        if At(pat, q) == '^' {
          q := q + 1;
        }
        var first := true;
        while first || At(pat, q) != ']'
          invariant q <= |pat|
          invariant first ==> BracketEnd(pat, q) == ClassEnd(pat, p)
          invariant !first ==> (if At(pat, q) == ']' then Ok(q + 1) else BracketEnd(pat, q)) == ClassEnd(pat, p)
          decreases |pat| - q
        {
          first := false;
          if q == |pat| {
            return Bad(MissingBracket);
          }
          q := q + 1;
          if pat[q - 1] == '%' && q < |pat| {
            q := q + 1;
          }
        }
        return Ok(q + 1);
      } else {
        return Ok(q);
      }
    }

    /** `matchbracketclass` */
    method FindInBracket(c: char, p: nat, ec: nat) returns (r: bool)
      requires p < ec < |pat|
      ensures r == MatchBracketClass(pat, p, ec, c)
    {
      var sig := true;
      var q := p;
      if pat[q + 1] == '^' {
        sig := false;
        q := q + 1;
      }
      q := q + 1;
      while q < ec
        invariant MatchBracketClass(pat, p, ec, c) == (InSet(pat, q, ec, c) == sig)
        decreases ec - q
      {
        if pat[q] == '%' {
          q := q + 1;
          if MatchClass(c, pat[q]) {
            return sig;
          }
        } else if pat[q + 1] == '-' && q + 2 < ec {
          q := q + 2;
          if pat[q - 2] <= c <= pat[q] {
            return sig;
          }
        } else if pat[q] == c {
          return sig;
        }
        q := q + 1;
      }
      r := !sig;
    }

    /** `matchbalance` */
    method FindBalance(s: nat, p: nat) returns (r: nat)
      requires s <= |src| && p + 1 < |pat|
      ensures r == MatchBalance(src, s, pat[p], pat[p + 1])
    {
      if At(src, s) != pat[p] {
        return 0;
      }
      var b, e := pat[p], pat[p + 1];
      var cont := 1;
      var i := s + 1;
      while i < |src|
        invariant cont > 0
        invariant BalanceEnd(src, i, b, e, cont) == MatchBalance(src, s, b, e)
        decreases |src| - i
      {
        if src[i] == e {
          if cont == 1 {
            return i + 1;
          }
          cont := cont - 1;
        } else if src[i] == b {
          cont := cont + 1;
        }
        i := i + 1;
      }
      r := 0;
    }

    /** `singlematch` */
    method MatchSingle(s: nat, p: nat, ep: nat) returns (r: bool)
      requires p < |pat| && ClassEnd(pat, p) == Ok(ep)
      ensures r == SingleMatch(src, pat, s, p, ep)
    {
      if s >= |src| {
        r := false;
      } else if pat[p] == '[' {
        r := FindInBracket(src[s], p, ep - 1);
      } else {
        r := pat[p] == '.' || (if pat[p] == '%' then MatchClass(src[s], pat[p + 1]) else pat[p] == src[s]);
      }
    }

    /** The first loop of `max_expand` */
    method CountRun(s: nat, p: nat, ep: nat) returns (i: nat)
      requires s <= |src| && p < |pat| && ClassEnd(pat, p) == Ok(ep)
      ensures i == MaxRun(src, pat, s, p, ep)
    {
      ghost var n := MaxRun(src, pat, s, p, ep);
      i := 0;
      var more := MatchSingle(s, p, ep);
      while more
        invariant 0 <= i <= n && more == SingleMatch(src, pat, s + i, p, ep)
        decreases n - i
      {
        i := i + 1;
        more := MatchSingle(s + i, p, ep);
      }
    }

    /** `max_expand`: as many as possible first, then one fewer at a time. */
    method MaxExpand(s: nat, p: nat, ep: nat) returns (r: Result)
      requires Valid(s) && p < |pat| && ClassEnd(pat, p) == Ok(ep) && ep < |pat|
      modifies this`level, this`matchdepth, this`caps, capture
      ensures Linked() && (!r.Raised? ==> matchdepth == old(matchdepth))
      ensures Agrees(LongestCalls(old(matchdepth), src, pat, s, ep + 1, old(caps), 0, MaxRun(src, pat, s, p, ep)), r,
                     old(caps), caps)
      decreases |pat| - p, 0
    {
      hide Call, LongestCalls, MaxRun, ClassEnd, Agrees, CapsOk, SingleMatch;
      ghost var was, d := caps, matchdepth;
      ghost var n := MaxRun(src, pat, s, p, ep);
      var i := CountRun(s, p, ep);
      while true
        invariant 0 <= i <= n && Valid(s) && caps == was && matchdepth == old(matchdepth)
        invariant LongestCalls(d, src, pat, s, ep + 1, was, 0, i) == LongestCalls(d, src, pat, s, ep + 1, was, 0, n)
        decreases i
      {
        CapsLater(was, s, s + i);
        r := Match(s + i, ep + 1);
        LongestTry(d, src, pat, s, ep + 1, was, i, r, caps);
        if r != Fail {
          return;
        }
        if i == 0 {
          return;
        }
        i := i - 1;
      }
    }

    /** `min_expand`: as few as possible first, then one more at a time. */
    method MinExpand(s: nat, p: nat, ep: nat) returns (r: Result)
      requires Valid(s) && p < |pat| && ClassEnd(pat, p) == Ok(ep) && ep < |pat|
      modifies this`level, this`matchdepth, this`caps, capture
      ensures Linked() && (!r.Raised? ==> matchdepth == old(matchdepth))
      ensures Agrees(ShortestCalls(old(matchdepth), src, pat, s, ep + 1, old(caps), 0, MaxRun(src, pat, s, p, ep)), r,
                     old(caps), caps)
      decreases |pat| - p, 0
    {
      hide Call, ShortestCalls, MaxRun, ClassEnd, Agrees, CapsOk, SingleMatch;
      ghost var was, d := caps, matchdepth;
      ghost var n := MaxRun(src, pat, s, p, ep);
      var i := s;
      while true
        invariant s <= i <= s + n && Valid(s) && caps == was && matchdepth == old(matchdepth)
        invariant ShortestCalls(d, src, pat, s, ep + 1, was, i - s, n) == ShortestCalls(d, src, pat, s, ep + 1, was, 0, n)
        decreases s + n - i
      {
        CapsLater(was, s, i);
        assert s + (i - s) == i;
        r := Match(i, ep + 1);
        ShortestTry(d, src, pat, s, ep + 1, was, i - s, n, r, caps);
        if r != Fail {
          return;
        }
        var one := MatchSingle(i, p, ep);
        if !one {
          return Fail;
        }
        i := i + 1;
      }
    }

    /** `start_capture` */
    method StartCapture(s: nat, p: nat, what: int) returns (r: Result)
      requires Valid(s) && p <= |pat| && (what == CAP_POSITION || what == CAP_UNFINISHED)
      modifies this`level, this`matchdepth, this`caps, capture
      ensures Linked() && (!r.Raised? ==> matchdepth == old(matchdepth))
      ensures Agrees(if |old(caps)| == LUA_MAXCAPTURES then [Error(TooManyCaptures)]
                     else Call(old(matchdepth), src, pat, s, p, old(caps) + [Capture(s, what)]),
                     r, old(caps), caps)
      decreases |pat| - p, 5
    {
      hide Call;
      ghost var was := caps;
      if level >= LUA_MAXCAPTURES {
        return Raised(TooManyCaptures);
      }
      capture[level] := Capture(s, what);
      level := level + 1;
      caps := caps + [Capture(s, what)];
      r := Match(s, p);
      if r == Fail {
        level := level - 1;
        caps := was;
        assert capture[..level] == (was + [Capture(s, what)])[..level];
      }
    }

    /** `end_capture` */
    method EndCapture(s: nat, p: nat) returns (r: Result)
      requires Valid(s) && p <= |pat|
      modifies this`level, this`matchdepth, this`caps, capture
      ensures Linked() && (!r.Raised? ==> matchdepth == old(matchdepth))
      ensures var was := old(caps); var l := ToClose(was);
              Agrees(if l == |was| then [Error(InvalidPatternCapture)]
                     else Call(old(matchdepth), src, pat, s, p, was[l := Capture(was[l].init, s - was[l].init)]),
                     r, was, caps)
      decreases |pat| - p, 5
    {
      hide Call;
      ghost var was := caps;
      var l := CaptureToClose();
      if l < 0 {
        return Raised(InvalidPatternCapture);
      }
      capture[l] := Capture(capture[l].init, s - capture[l].init);
      caps := caps[l := capture[l]];
      r := Match(s, p);
      if r == Fail {
        capture[l] := Capture(capture[l].init, CAP_UNFINISHED);
        caps := was;
      }
    }

    /** `match_capture`: the end of another copy of a capture. */
    method MatchCapture(s: nat, digit: char) returns (r: Result)
      requires Valid(s)
      ensures r == if !ValidIndex(caps, digit) then Raised(InvalidCaptureIndex)
                   else if Repeats(src, s, caps[(digit - '1') as int])
                   then Found(s + caps[(digit - '1') as int].len) else Fail
    {
      if digit < '1' || digit > '9' || (digit - '1') as int >= level
         || capture[(digit - '1') as int].len == CAP_UNFINISHED {
        return Raised(InvalidCaptureIndex);
      }
      var cap := capture[(digit - '1') as int];
      assert cap == caps[(digit - '1') as int];
      if cap.len >= 0 && |src| - s >= cap.len && src[cap.init..cap.init + cap.len] == src[s..s + cap.len] {
        r := Found(s + cap.len);
      } else {
        r := Fail;
      }
    }

    /** The escapes `%b`, `%f` and `%0` to `%9`, which go on without a recursive call. */
    method MatchEscape(s: nat, p: nat) returns (r: Result, p': nat)
      requires Valid(s) && p < |pat| && (var it := ItemAt(pat, p); it.Balance? || it.Frontier? || it.Back? || it.Wrong?)
      requires pat[p] == '%' && (var c := At(pat, p + 1); c == 'b' || c == 'f' || IsDigit(c))
      ensures r.Found? ==> p < p' <= |pat| && s <= r.end <= |src|
      ensures Inside(matchdepth, src, pat, s, p, caps) ==
              if r.Found? then Inside(matchdepth, src, pat, r.end, p', caps) else if r.Raised? then [Error(r.failure)] else []
    {
      hide Inside, MatchBalance, AtFrontier, BracketEnd, ClassEnd, SingleAt, MatchBracketClass;
      InsideEscape(matchdepth, src, pat, s, p, caps);
      var c := At(pat, p + 1);
      p' := p;
      if c == 'b' {
        if p + 2 >= |pat| - 1 {
          return Raised(MissingBalance), p;
        }
        var e := FindBalance(s, p + 2);
        r, p' := if e == 0 then Fail else Found(e), p + 4;
      } else if c == 'f' {
        if At(pat, p + 2) != '[' {
          return Raised(MissingFrontier), p;
        }
        var ep := FindClassEnd(p + 2);
        if ep.Bad? {
          return Raised(ep.failure), p;
        }
        var here := MatchFrontier(s, p + 2, ep.value);
        r, p' := if here then Found(s) else Fail, ep.value;
      } else {
        r := MatchCapture(s, c);
        p' := p + 2;
      }
    }

    method MatchFrontier(s: nat, p: nat, ep: nat) returns (here: bool)
      requires s <= |src| && p < |pat| && pat[p] == '[' && ClassEnd(pat, p) == Ok(ep)
      ensures here == AtFrontier(src, pat, s, p, ep)
    {
      var previous := if s == 0 then '\0' else src[s - 1];
      here := FindInBracket(previous, p, ep - 1);
      if here {
        return false;
      }
      here := FindInBracket(At(src, s), p, ep - 1);
    }

    /** `?` on a class that accepts the next character: with it, and if that fails go on without it. */
    method MatchOptional(s: nat, next: nat) returns (again: bool, r: Result)
      requires Valid(s) && s < |src| && next <= |pat|
      modifies this`level, this`matchdepth, this`caps, capture
      ensures Linked() && (!r.Raised? ==> matchdepth == old(matchdepth)) && (again ==> r == Fail)
      ensures var d := old(matchdepth);
              if again then caps == old(caps) && Call(d, src, pat, s + 1, next, caps) == []
              else Agrees(Call(d, src, pat, s + 1, next, old(caps)) + Inside(d, src, pat, s, next, old(caps)), r, old(caps), caps)
      decreases |pat| - next, 5
    {
      ghost var was, d := caps, matchdepth;
      CapsLater(was, s, s + 1);
      hide Call, Inside, Agrees, CapsOk;
      r := Match(s + 1, next);
      Alternatives(Call(d, src, pat, s + 1, next, was), Inside(d, src, pat, s, next, was), r, was, caps);
      again := r == Fail;
    }

    /** A class that accepts the next character and has a suffix. Only `?` can go on, at the next item. */
    method MatchRepeated(s: nat, p: nat, ep: nat) returns (again: bool, r: Result)
      requires Valid(s) && p < |pat| && ItemAt(pat, p) == SingleAt(pat, p) && ClassEnd(pat, p) == Ok(ep)
      requires SingleMatch(src, pat, s, p, ep) && !SuffixOf(At(pat, ep)).Once?
      modifies this`level, this`matchdepth, this`caps, capture
      ensures Linked() && (!r.Raised? ==> matchdepth == old(matchdepth)) && (again ==> r == Fail)
      ensures var d := old(matchdepth);
              if again then caps == old(caps) && Inside(d, src, pat, s, p, caps) == Inside(d, src, pat, s, ep + 1, caps)
              else Agrees(Inside(d, src, pat, s, p, old(caps)), r, old(caps), caps)
      decreases |pat| - p, 1
    {
      hide Call, Inside, LongestCalls, ShortestCalls, MaxRun, Agrees, ClassEnd, ItemAt, SingleAt, SingleMatch, At, CapsOk;
      ItemIs(pat, p, ep);
      InsideSingle(matchdepth, src, pat, s, p, caps);
      CapsLater(caps, s, s + 1);
      var suffix := At(pat, ep);
      again := false;
      if suffix == '?' {
        again, r := MatchOptional(s, ep + 1);
      } else if suffix == '+' {
        r := MaxExpand(s + 1, p, ep);
      } else if suffix == '*' {
        r := MaxExpand(s, p, ep);
      } else {
        r := MinExpand(s, p, ep);
      }
    }

    /** The default case: a class with an optional suffix. It says whether to go on, at `s'` and `p'`. */
    method MatchDefault(s: nat, p: nat) returns (again: bool, s': nat, p': nat, r: Result)
      requires Valid(s) && p < |pat| && ItemAt(pat, p) == SingleAt(pat, p)
      modifies this`level, this`matchdepth, this`caps, capture
      ensures Linked() && (!r.Raised? ==> matchdepth == old(matchdepth))
      ensures again ==> && p < p' <= |pat| && s <= s' <= |src| && caps == old(caps) && !r.Raised?
                        && Inside(matchdepth, src, pat, s', p', caps) == Inside(matchdepth, src, pat, s, p, caps)
      ensures !again ==> Agrees(Inside(old(matchdepth), src, pat, s, p, old(caps)), r, old(caps), caps)
      decreases |pat| - p, 2
    {
      hide Call, Inside, LongestCalls, ShortestCalls, MaxRun, ClassEnd, ItemAt, SingleAt, SingleMatch, At, Agrees, CapsOk;
      again, s', p', r := false, s, p, Fail;
      var e := FindClassEnd(p);
      if e.Bad? {
        BadItem(matchdepth, src, pat, s, p, caps, e.failure);
        r := Raised(e.failure);
        return;
      }
      var ep := e.value;
      ItemIs(pat, p, ep);
      InsideSingle(matchdepth, src, pat, s, p, caps);
      CapsLater(caps, s, s + 1);
      NoOutcome(caps);
      var suffix := At(pat, ep);
      var one := MatchSingle(s, p, ep);
      if !one {
        if suffix == '*' || suffix == '?' || suffix == '-' {
          again, p' := true, ep + 1;
        }
      } else if suffix == '?' || suffix == '+' || suffix == '*' || suffix == '-' {
        again, r := MatchRepeated(s, p, ep);
        p' := ep + 1;
      } else {
        again, s', p' := true, s + 1, ep;
      }
    }

    /** One turn of `match`. It says whether to go on, at `s'` and `p'`. */
    method MatchItem(s: nat, p: nat) returns (again: bool, s': nat, p': nat, r: Result)
      requires Valid(s) && p <= |pat|
      modifies this`level, this`matchdepth, this`caps, capture
      ensures Linked() && (!r.Raised? ==> matchdepth == old(matchdepth))
      ensures again ==> && p < p' <= |pat| && s <= s' <= |src| && caps == old(caps) && !r.Raised?
                        && Inside(matchdepth, src, pat, s', p', caps) == Inside(matchdepth, src, pat, s, p, caps)
      ensures !again ==> Agrees(Inside(old(matchdepth), src, pat, s, p, old(caps)), r, old(caps), caps)
      decreases |pat| - p, 3
    {
      hide Call, LongestCalls, ShortestCalls, MaxRun, MatchBalance, AtFrontier, Repeats, ValidIndex, ToClose, ClassEnd;
      again, s', p', r := false, s, p, Fail;
      if p == |pat| {
        r := Found(s);
        return;
      }
      var c := At(pat, p + 1);
      if pat[p] == '(' {
        if c == ')' {
          r := StartCapture(s, p + 2, CAP_POSITION);
        } else {
          r := StartCapture(s, p + 1, CAP_UNFINISHED);
        }
      } else if pat[p] == ')' {
        r := EndCapture(s, p + 1);
      } else if pat[p] == '$' && p + 1 == |pat| {
        r := if s == |src| then Found(s) else Fail;
      } else if pat[p] == '%' && (c == 'b' || c == 'f' || IsDigit(c)) {
        r, p' := MatchEscape(s, p);
        if r.Found? {
          again, s', r := true, r.end, Fail;
        }
      } else {
        again, s', p', r := MatchDefault(s, p);
      }
    }

    /** `match` */
    method Match(s0: nat, p0: nat) returns (r: Result)
      requires Valid(s0) && p0 <= |pat|
      modifies this`level, this`matchdepth, this`caps, capture
      ensures Linked() && (!r.Raised? ==> matchdepth == old(matchdepth))
      ensures Agrees(Call(old(matchdepth), src, pat, s0, p0, old(caps)), r, old(caps), caps)
      decreases |pat| - p0, 4
    {
      hide Inside, CapsOk;
      if matchdepth == 0 {
        return Raised(TooComplex);
      }
      matchdepth := matchdepth - 1;
      ghost var was, d := caps, matchdepth;
      var s, p, again := s0, p0, true;
      r := Fail;
      while again
        invariant again ==> Valid(s) && p0 <= p <= |pat| && s0 <= s && caps == was && matchdepth + 1 == old(matchdepth)
        invariant again ==> Inside(d, src, pat, s, p, was) == Inside(d, src, pat, s0, p0, was)
        invariant !again ==> Linked() && (!r.Raised? ==> matchdepth + 1 == old(matchdepth))
        invariant !again ==> Agrees(Inside(d, src, pat, s0, p0, was), r, was, caps)
        decreases again, |pat| - p
      {
        CapsLaterAll(was, s);
        again, s, p, r := MatchItem(s, p);
      }
      if !r.Raised? {
        matchdepth := matchdepth + 1;
      }
    }

    /** `reprepstate` */
    method Reset()
      requires Linked()
      modifies this`level, this`caps
      ensures Linked() && caps == []
    {
      level, caps := 0, [];
    }

    /** The loop of `str_find_aux`: the leftmost place from `init` on where the pattern comes to anything. */
    method Find(init: nat, anchor: bool) returns (r: Result, start: nat)
      requires Linked() && init <= |src| && matchdepth == MAXCCALLS
      modifies this`level, this`matchdepth, this`caps, capture
      ensures Linked() && Finds(src, pat, init, anchor, r, start, caps)
    {
      hide All, Call, TooDeep, Nesting;
      start := init;
      while true
        invariant Linked() && init <= start <= |src| && (anchor ==> start == init) && matchdepth == MAXCCALLS
        invariant forall k :: init <= k < start ==> All(src, pat, k, 0, []) == []
        decreases |src| - start
      {
        Reset();
        r := Match(start, 0);
        AgreesWithAll(MAXCCALLS, src, pat, start, 0, [], r, caps);
        if r != Fail || start == |src| || anchor {
          return;
        }
        start := start + 1;
      }
    }
  }

  /** The search stops at the first place from `init` on where the pattern comes to anything, or at the last place there is:
      with the first outcome there, except that the error for too much nesting comes exactly where a call is missing before
      any outcome. */
  ghost predicate Finds(src: string, pat: string, init: nat, anchor: bool, r: Result, start: nat, caps: seq<Capture>) {
    && init <= start <= |src| && (anchor ==> start == init)
    && (forall k :: init <= k < start ==> All(src, pat, k, 0, []) == [])
    && (r == Fail ==> start == |src| || anchor)
    && (r == Raised(TooComplex) <==> TooDeep(200, src, pat, start, 0, []))
    && (r == Raised(TooComplex) ==> 200 <= Nesting(pat, 0))
    && (r != Raised(TooComplex) ==> Agrees(All(src, pat, start, 0, []), r, [], caps))
  }

  /** `str_find_aux` with a pattern: a leading `^` anchors the rest of it. */
  method FindPattern(src: string, pattern: string, init: nat) returns (r: Result, start: nat, caps: seq<Capture>)
    requires init <= |src|
    ensures var anchor := At(pattern, 0) == '^';
            Finds(src, if anchor then pattern[1..] else pattern, init, anchor, r, start, caps)
  {
    hide Finds;
    var anchor := At(pattern, 0) == '^';
    var ms := new MatchState(src, if anchor then pattern[1..] else pattern);
    r, start := ms.Find(init, anchor);
    caps := ms.capture[..ms.level];
  }
}
