/** What "first" means in the list of outcomes of a pattern: the only freedom a pattern leaves is how many times each
    repeated class is taken, and the first outcome is the one of the most preferred choice of those numbers. */
module PatternMeaning {
  import opened Wrappers
  import opened Pattern

  function Least(suffix: Suffix): nat {
    if suffix.Plus? then 1 else 0
  }

  function Most(suffix: Suffix, n: nat): nat {
    if suffix.Optional? && n > 0 then 1 else n
  }

  /** The outcome when the repeated classes, in the order they are met, take the numbers of characters in `choice`;
      nothing, when that does not match or the numbers are too few or too many. */
  function Play(src: string, pat: string, s: nat, p: nat, caps: seq<Capture>, choice: seq<nat>): Option<Outcome>
    requires s <= |src| && p <= |pat| && CapsOk(caps, s)
    decreases |pat| - p
  {
    match ItemAt(pat, p)
    case End => Over(Match(s, caps), choice)
    case Open(position, next) =>
      if |caps| == LUA_MAXCAPTURES then Over(Error(TooManyCaptures), choice)
      else Play(src, pat, s, next, caps + [Capture(s, if position then CAP_POSITION else CAP_UNFINISHED)], choice)
    case Close(next) =>
      var l := ToClose(caps);
      if l == |caps| then Over(Error(InvalidPatternCapture), choice)
      else Play(src, pat, s, next, caps[l := Capture(caps[l].init, s - caps[l].init)], choice)
    case Anchor => if s == |src| then Over(Match(s, caps), choice) else None
    case Balance(next) =>
      var e := MatchBalance(src, s, pat[p + 2], pat[p + 3]);
      if e == 0 then None else Play(src, pat, e, next, caps, choice)
    case Frontier(cls, next) => if AtFrontier(src, pat, s, cls, next) then Play(src, pat, s, next, caps, choice) else None
    case Back(digit, next) =>
      if !ValidIndex(caps, digit) then Over(Error(InvalidCaptureIndex), choice)
      else
        var cap := caps[(digit - '1') as int];
        if Repeats(src, s, cap) then Play(src, pat, s + cap.len, next, caps, choice) else None
    case Single(ep, suffix, next) =>
      var n := MaxRun(src, pat, s, p, ep);
      if suffix.Once? then (if n > 0 then Play(src, pat, s + 1, next, caps, choice) else None)
      else if choice != [] && Least(suffix) <= choice[0] <= Most(suffix, n) then
        Play(src, pat, s + choice[0], next, caps, choice[1..])
      else None
    case Wrong(failure) => Over(Error(failure), choice)
  }

  function Over(outcome: Outcome, choice: seq<nat>): Option<Outcome> {
    if choice == [] then Some(outcome) else None
  }

  /** The first number in which two choices differ decides: fewer is better for `-`, more for the others. */
  predicate Better(pat: string, p: nat, a: seq<nat>, b: seq<nat>)
    requires p <= |pat|
    decreases |pat| - p
  {
    var item := ItemAt(pat, p);
    if item.Open? || item.Close? || item.Balance? || item.Frontier? || item.Back? || (item.Single? && item.suffix.Once?) then
      Better(pat, item.next, a, b)
    else if item.Single? && a != [] && b != [] then
      if a[0] == b[0] then Better(pat, item.next, a[1..], b[1..])
      else if item.suffix.Lazy? then a[0] < b[0] else a[0] > b[0]
    else false
  }

  /** No choice matches exactly when the list is empty; otherwise the first outcome is that of one choice, and that
      choice is better than every other one that comes to anything. */
  ghost predicate Best(src: string, pat: string, s: nat, p: nat, caps: seq<Capture>, best: seq<nat>)
    requires s <= |src| && p <= |pat| && CapsOk(caps, s)
  {
    var all := All(src, pat, s, p, caps);
    if all == [] then forall c :: Play(src, pat, s, p, caps, c) == None
    else
      && Play(src, pat, s, p, caps, best) == Some(all[0])
      && forall c :: Play(src, pat, s, p, caps, c) != None && c != best ==> Better(pat, p, best, c)
  }

  /** The same for a repeated class that may end anywhere from `lo` to `hi`. */
  ghost predicate BestOf(src: string, pat: string, next: nat, caps: seq<Capture>, lo: nat, hi: nat, fewer: bool,
                         all: seq<Outcome>, at: nat, best: seq<nat>)
    requires hi <= |src| && next <= |pat| && CapsOk(caps, lo)
  {
    if all == [] then forall e, c :: lo <= e <= hi ==> Play(src, pat, e, next, caps, c) == None
    else
      && lo <= at <= hi && Play(src, pat, at, next, caps, best) == Some(all[0])
      && forall e, c :: lo <= e <= hi && Play(src, pat, e, next, caps, c) != None && !(e == at && c == best) ==>
           if e == at then Better(pat, next, best, c) else if fewer then at < e else e < at
  }

  lemma {:induction false} LongestBest(src: string, pat: string, s: nat, next: nat, caps: seq<Capture>, lo: nat, hi: nat)
      returns (at: nat, best: seq<nat>)
    requires lo <= hi && s + hi <= |src| && next <= |pat| && CapsOk(caps, s)
    ensures BestOf(src, pat, next, caps, s + lo, s + hi, false, Longest(src, pat, s, next, caps, lo, hi), at, best) && at >= s
    decreases |pat| - next, 1, hi
  {
    hide All, Play, Better;
    best := FirstIsBest(src, pat, s + hi, next, caps);
    at := s + hi;
    if All(src, pat, s + hi, next, caps) == [] && lo < hi {
      assert Longest(src, pat, s, next, caps, lo, hi) == Longest(src, pat, s, next, caps, lo, hi - 1);
      at, best := LongestBest(src, pat, s, next, caps, lo, hi - 1);
    }
  }

  lemma {:induction false} ShortestBest(src: string, pat: string, s: nat, next: nat, caps: seq<Capture>, lo: nat, hi: nat)
      returns (at: nat, best: seq<nat>)
    requires lo <= hi && s + hi <= |src| && next <= |pat| && CapsOk(caps, s)
    ensures BestOf(src, pat, next, caps, s + lo, s + hi, true, Shortest(src, pat, s, next, caps, lo, hi), at, best) && at >= s
    decreases |pat| - next, 1, hi - lo
  {
    hide All, Play, Better;
    best := FirstIsBest(src, pat, s + lo, next, caps);
    at := s + lo;
    if All(src, pat, s + lo, next, caps) == [] && lo < hi {
      assert Shortest(src, pat, s, next, caps, lo, hi) == Shortest(src, pat, s, next, caps, lo + 1, hi);
      at, best := ShortestBest(src, pat, s, next, caps, lo + 1, hi);
    }
  }

  lemma PlayRepeated(src: string, pat: string, s: nat, p: nat, caps: seq<Capture>, c: seq<nat>)
    requires s <= |src| && p <= |pat| && CapsOk(caps, s) && ItemAt(pat, p).Single? && !ItemAt(pat, p).suffix.Once?
    ensures var it := ItemAt(pat, p); var n := MaxRun(src, pat, s, p, it.ep);
            Play(src, pat, s, p, caps, c) ==
            if c != [] && Least(it.suffix) <= c[0] <= Most(it.suffix, n) then Play(src, pat, s + c[0], it.next, caps, c[1..])
            else None
  {
  }

  ghost predicate Hit(src: string, pat: string, s: nat, p: nat, caps: seq<Capture>, at: nat, rest: seq<nat>)
    requires s <= |src| && p <= |pat| && CapsOk(caps, s) && ItemAt(pat, p).Single?
  {
    var it := ItemAt(pat, p);
    var n := MaxRun(src, pat, s, p, it.ep);
    s <= at &&
    if Least(it.suffix) > Most(it.suffix, n) then All(src, pat, s, p, caps) == []
    else BestOf(src, pat, it.next, caps, s + Least(it.suffix), s + Most(it.suffix, n), it.suffix.Lazy?,
                All(src, pat, s, p, caps), at, rest)
  }

  lemma RepeatedChoice(src: string, pat: string, s: nat, p: nat, caps: seq<Capture>, at: nat, rest: seq<nat>, c: seq<nat>)
    requires s <= |src| && p <= |pat| && CapsOk(caps, s) && ItemAt(pat, p).Single? && !ItemAt(pat, p).suffix.Once?
    requires Hit(src, pat, s, p, caps, at, rest)
    ensures if All(src, pat, s, p, caps) == [] then Play(src, pat, s, p, caps, c) == None
            else Play(src, pat, s, p, caps, c) != None && c != [at - s] + rest ==> Better(pat, p, [at - s] + rest, c)
  {
    var it := ItemAt(pat, p);
    var n := MaxRun(src, pat, s, p, it.ep);
    PlayRepeated(src, pat, s, p, caps, c);
    if c != [] {
      BetterRepeated(pat, p, [at - s] + rest, c);
      assert ([at - s] + rest)[1..] == rest;
    }
    hide Play, All, MaxRun, Better, ItemAt, BestOf;
    OneChoice(src, pat, s, p, it.next, caps, s + Least(it.suffix), s + Most(it.suffix, n), it.suffix.Lazy?,
              All(src, pat, s, p, caps), at, rest, c);
  }

  lemma RepeatedBest(src: string, pat: string, s: nat, p: nat, caps: seq<Capture>, at: nat, rest: seq<nat>)
    requires s <= |src| && p <= |pat| && CapsOk(caps, s) && ItemAt(pat, p).Single? && !ItemAt(pat, p).suffix.Once?
    requires Hit(src, pat, s, p, caps, at, rest)
    ensures Best(src, pat, s, p, caps, [at - s] + rest)
  {
    hide Play, All, Better, MaxRun, ItemAt;
    var best := [at - s] + rest;
    assert best[1..] == rest;
    PlayRepeated(src, pat, s, p, caps, best);
    forall c ensures if All(src, pat, s, p, caps) == [] then Play(src, pat, s, p, caps, c) == None
                     else Play(src, pat, s, p, caps, c) != None && c != best ==> Better(pat, p, best, c)
    {
      RepeatedChoice(src, pat, s, p, caps, at, rest, c);
    }
  }

  lemma OneChoice(src: string, pat: string, s: nat, p: nat, next: nat, caps: seq<Capture>, lo: nat, hi: nat, fewer: bool,
                  all: seq<Outcome>, at: nat, rest: seq<nat>, c: seq<nat>)
    requires s <= |src| && s <= lo && s <= at && hi <= |src| && p <= |pat| && next <= |pat| && CapsOk(caps, s)
    requires if lo > hi then all == [] else BestOf(src, pat, next, caps, lo, hi, fewer, all, at, rest)
    requires Play(src, pat, s, p, caps, c) ==
             if c != [] && lo <= s + c[0] <= hi then Play(src, pat, s + c[0], next, caps, c[1..]) else None
    requires c != [] ==> Better(pat, p, [at - s] + rest, c) ==
                         if at - s == c[0] then Better(pat, next, rest, c[1..])
                         else if fewer then at - s < c[0] else at - s > c[0]
    ensures if all == [] then Play(src, pat, s, p, caps, c) == None
            else Play(src, pat, s, p, caps, c) != None && c != [at - s] + rest ==> Better(pat, p, [at - s] + rest, c)
  {
    hide Play, All, Better, ItemAt, CapsOk;
    if c != [] {
      assert c == [c[0]] + c[1..];
    }
  }

  lemma BetterRepeated(pat: string, p: nat, a: seq<nat>, b: seq<nat>)
    requires p <= |pat| && ItemAt(pat, p).Single? && !ItemAt(pat, p).suffix.Once? && a != [] && b != []
    ensures Better(pat, p, a, b) ==
            if a[0] == b[0] then Better(pat, ItemAt(pat, p).next, a[1..], b[1..])
            else if ItemAt(pat, p).suffix.Lazy? then a[0] < b[0] else a[0] > b[0]
  {
  }

  lemma {:induction false} SuffixBest(src: string, pat: string, s: nat, p: nat, caps: seq<Capture>) returns (best: seq<nat>)
    requires s <= |src| && p <= |pat| && CapsOk(caps, s) && ItemAt(pat, p).Single? && !ItemAt(pat, p).suffix.Once?
    ensures Best(src, pat, s, p, caps, best)
    decreases |pat| - ItemAt(pat, p).next, 2
  {
    var it := ItemAt(pat, p);
    var n := MaxRun(src, pat, s, p, it.ep);
    var at, rest := s, [];
    if it.suffix.Lazy? {
      at, rest := ShortestBest(src, pat, s, it.next, caps, 0, n);
    } else if Least(it.suffix) <= Most(it.suffix, n) {
      at, rest := LongestBest(src, pat, s, it.next, caps, Least(it.suffix), Most(it.suffix, n));
    }
    hide Best, BestOf, Longest, Shortest, Play, Better;
    RepeatedBest(src, pat, s, p, caps, at, rest);
    best := [at - s] + rest;
  }

  lemma {:induction false} FirstIsBest(src: string, pat: string, s: nat, p: nat, caps: seq<Capture>) returns (best: seq<nat>)
    requires s <= |src| && p <= |pat| && CapsOk(caps, s)
    ensures Best(src, pat, s, p, caps, best)
    decreases |pat| - p, 0, 0
  {
    best := [];
    match ItemAt(pat, p)
    case Open(position, next) =>
      if |caps| < LUA_MAXCAPTURES {
        best := FirstIsBest(src, pat, s, next, caps + [Capture(s, if position then CAP_POSITION else CAP_UNFINISHED)]);
      }
    case Close(next) =>
      var l := ToClose(caps);
      if l < |caps| {
        best := FirstIsBest(src, pat, s, next, caps[l := Capture(caps[l].init, s - caps[l].init)]);
      }
    case Balance(next) =>
      var e := MatchBalance(src, s, pat[p + 2], pat[p + 3]);
      if e != 0 {
        best := FirstIsBest(src, pat, e, next, caps);
      }
    case Frontier(cls, next) =>
      if AtFrontier(src, pat, s, cls, next) {
        best := FirstIsBest(src, pat, s, next, caps);
      }
    case Back(digit, next) =>
      if ValidIndex(caps, digit) && Repeats(src, s, caps[(digit - '1') as int]) {
        best := FirstIsBest(src, pat, s + caps[(digit - '1') as int].len, next, caps);
      }
    case Single(ep, suffix, next) =>
      var n := MaxRun(src, pat, s, p, ep);
      if suffix.Once? {
        if n > 0 {
          best := FirstIsBest(src, pat, s + 1, next, caps);
        }
      } else {
        best := SuffixBest(src, pat, s, p, caps);
      }
    case _ =>
  }
}
