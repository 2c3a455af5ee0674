/** Lua patterns: how lstrlib.c reads a pattern, and what a pattern means as the list of all its matches, the
    preferred one first. Strings end with a terminator that is not part of them. */
module Pattern {
  const LUA_MAXCAPTURES := 32
  const CAP_UNFINISHED := -1
  const CAP_POSITION := -2

  datatype Failure = EndsWithPercent | MissingBracket | MissingBalance | MissingFrontier
                   | TooManyCaptures | InvalidPatternCapture | InvalidCaptureIndex | TooComplex

  datatype Capture = Capture(init: nat, len: int)

  /** What a pattern can come to: a match up to `end` with some captures, or an error raised on the way. */
  datatype Outcome = Match(end: nat, caps: seq<Capture>) | Error(failure: Failure)

  /** The character at `i`, or the terminator. */
  function At(t: string, i: nat): char {
    if i < |t| then t[i] else '\0'
  }

  // ----- single characters -----

  predicate IsUpper(c: char) { 'A' <= c <= 'Z' }
  predicate IsLower(c: char) { 'a' <= c <= 'z' }
  predicate IsDigit(c: char) { '0' <= c <= '9' }
  predicate IsAlpha(c: char) { IsUpper(c) || IsLower(c) }
  predicate IsAlnum(c: char) { IsAlpha(c) || IsDigit(c) }
  predicate IsCntrl(c: char) { c < ' ' || c as int == 127 }
  predicate IsGraph(c: char) { ' ' < c && (c as int) < 127 }
  predicate IsPunct(c: char) { IsGraph(c) && !IsAlnum(c) }
  predicate IsSpace(c: char) { c == ' ' || 9 <= c as int <= 13 }
  predicate IsXDigit(c: char) { IsDigit(c) || 'A' <= c <= 'F' || 'a' <= c <= 'f' }

  function ToLower(c: char): char {
    if IsUpper(c) then c + ' ' else c
  }

  /** `match_class` */
  predicate MatchClass(c: char, cl: char) {
    var l := ToLower(cl);
    var res :=
      if l == 'a' then IsAlpha(c) else if l == 'c' then IsCntrl(c) else if l == 'd' then IsDigit(c)
      else if l == 'g' then IsGraph(c) else if l == 'l' then IsLower(c) else if l == 'p' then IsPunct(c)
      else if l == 's' then IsSpace(c) else if l == 'u' then IsUpper(c) else if l == 'w' then IsAlnum(c)
      else if l == 'x' then IsXDigit(c) else c == '\0';
    if l in "acdglpsuwxz" then (if IsLower(cl) then res else !res) else cl == c
  }

  /** The members of a set, from `q` to the closing bracket at `ec`. */
  predicate InSet(pat: string, q: nat, ec: nat, c: char)
    requires ec < |pat|
    decreases ec - q
  {
    if q >= ec then false
    else if pat[q] == '%' then MatchClass(c, pat[q + 1]) || InSet(pat, q + 2, ec, c)
    else if pat[q + 1] == '-' && q + 2 < ec then pat[q] <= c <= pat[q + 2] || InSet(pat, q + 3, ec, c)
    else pat[q] == c || InSet(pat, q + 1, ec, c)
  }

  /** The set at `p`, complemented when it begins with `^`. */
  predicate MatchBracketClass(pat: string, p: nat, ec: nat, c: char)
    requires p < ec < |pat|
  {
    if pat[p + 1] == '^' then !InSet(pat, p + 2, ec, c) else InSet(pat, p + 1, ec, c)
  }

  datatype Parsed<T> = Ok(value: T) | Bad(failure: Failure)

  /** The end of a set, from the first character of its body on, which is a member even when it is a bracket. */
  function BracketEnd(pat: string, q: nat): (r: Parsed<nat>)
    requires q <= |pat|
    ensures r.Ok? ==> q < r.value <= |pat|
    decreases |pat| - q
  {
    if q == |pat| then Bad(MissingBracket)
    else
      var q' := if pat[q] == '%' && q + 1 < |pat| then q + 2 else q + 1;
      if At(pat, q') == ']' then Ok(q' + 1) else BracketEnd(pat, q')
  }

  /** `classend`: where the single-character class at `p` ends. */
  function ClassEnd(pat: string, p: nat): (r: Parsed<nat>)
    requires p < |pat|
    ensures r.Ok? ==> p < r.value <= |pat|
    ensures r.Ok? && pat[p] == '[' ==> p + 1 < r.value
    ensures r.Ok? && pat[p] == '%' ==> p + 1 < |pat|
  {
    if pat[p] == '%' then (if p + 1 == |pat| then Bad(EndsWithPercent) else Ok(p + 2))
    else if pat[p] == '[' then BracketEnd(pat, if At(pat, p + 1) == '^' then p + 2 else p + 1)
    else Ok(p + 1)
  }

  /** `singlematch` */
  predicate SingleMatch(src: string, pat: string, s: nat, p: nat, ep: nat)
    requires p < |pat| && ClassEnd(pat, p) == Ok(ep)
  {
    s < |src|
    && (if pat[p] == '.' then true
        else if pat[p] == '%' then MatchClass(src[s], pat[p + 1])
        else if pat[p] == '[' then MatchBracketClass(pat, p, ep - 1, src[s])
        else pat[p] == src[s])
  }

  // ----- items -----

  datatype Suffix = Once | Optional | Star | Plus | Lazy

  /** What stands at one place of a pattern, and where the next item is. */
  datatype Item =
    | End
    | Open(position: bool, next: nat)
    | Close(next: nat)
    | Anchor
    | Balance(next: nat)
    | Frontier(cls: nat, next: nat)
    | Back(digit: char, next: nat)
    | Single(ep: nat, suffix: Suffix, next: nat)
    | Wrong(failure: Failure)

  function SuffixOf(c: char): Suffix {
    if c == '?' then Optional else if c == '*' then Star else if c == '+' then Plus else if c == '-' then Lazy else Once
  }

  /** A class and its suffix. */
  function SingleAt(pat: string, p: nat): (r: Item)
    requires p < |pat|
    ensures r.Single? || r.Wrong?
    ensures r.Single? ==> ClassEnd(pat, p) == Ok(r.ep) && p < r.next <= |pat|
  {
    var e := ClassEnd(pat, p);
    if e.Bad? then Wrong(e.failure)
    else
      var suffix := SuffixOf(At(pat, e.value));
      Single(e.value, suffix, if suffix.Once? then e.value else e.value + 1)
  }

  function ItemAt(pat: string, p: nat): (r: Item)
    requires p <= |pat|
    ensures r.Open? || r.Close? || r.Balance? || r.Frontier? || r.Back? || r.Single? ==> p < r.next <= |pat|
    ensures r.Single? ==> ClassEnd(pat, p) == Ok(r.ep)
    ensures r.Frontier? ==> p < r.cls < |pat| && pat[r.cls] == '[' && ClassEnd(pat, r.cls) == Ok(r.next)
    ensures r.Balance? ==> p + 3 < |pat|
  {
    if p == |pat| then End
    else if pat[p] == '(' then
      (if At(pat, p + 1) == ')' then Open(true, p + 2) else Open(false, p + 1))
    else if pat[p] == ')' then Close(p + 1)
    else if pat[p] == '$' && p + 1 == |pat| then Anchor
    else if pat[p] == '%' && At(pat, p + 1) == 'b' then
      (if p + 3 < |pat| then Balance(p + 4) else Wrong(MissingBalance))
    else if pat[p] == '%' && At(pat, p + 1) == 'f' then
      (if At(pat, p + 2) != '[' then Wrong(MissingFrontier)
       else
         var e := ClassEnd(pat, p + 2);
         if e.Bad? then Wrong(e.failure) else Frontier(p + 2, e.value))
    else if pat[p] == '%' && IsDigit(At(pat, p + 1)) then Back(pat[p + 1], p + 2)
    else SingleAt(pat, p)
  }

  // ----- what the items match -----

  /** Captures lie in the part of the subject already matched. */
  predicate CapsOk(caps: seq<Capture>, s: nat) {
    && |caps| <= LUA_MAXCAPTURES
    && forall i :: 0 <= i < |caps| ==>
         && caps[i].init <= s && caps[i].init + caps[i].len <= s
         && (caps[i].len >= 0 || caps[i].len == CAP_UNFINISHED || caps[i].len == CAP_POSITION)
  }

  /** `capture_to_close`: the last unfinished capture, or the number of captures when there is none. */
  function ToClose(caps: seq<Capture>): (l: nat)
    ensures l <= |caps|
    ensures l < |caps| ==> caps[l].len == CAP_UNFINISHED && forall i :: l < i < |caps| ==> caps[i].len != CAP_UNFINISHED
    ensures l == |caps| ==> forall i :: 0 <= i < |caps| ==> caps[i].len != CAP_UNFINISHED
  {
    if caps == [] then 0
    else if caps[|caps| - 1].len == CAP_UNFINISHED then |caps| - 1
    else
      var l := ToClose(caps[..|caps| - 1]);
      if l == |caps| - 1 then |caps| else l
  }

  /** The end of the balanced text that starts before `s`, with `depth` brackets open. */
  function BalanceEnd(src: string, s: nat, b: char, e: char, depth: nat): (r: nat)
    requires depth > 0
    ensures r == 0 || s < r <= |src|
    decreases |src| - s
  {
    if s >= |src| then 0
    else if src[s] == e then (if depth == 1 then s + 1 else BalanceEnd(src, s + 1, b, e, depth - 1))
    else BalanceEnd(src, s + 1, b, e, if src[s] == b then depth + 1 else depth)
  }

  /** `matchbalance`: where the balanced text at `s` ends, or 0. */
  function MatchBalance(src: string, s: nat, b: char, e: char): (r: nat)
    requires s <= |src|
    ensures r == 0 || s < r <= |src|
  {
    if At(src, s) != b then 0 else BalanceEnd(src, s + 1, b, e, 1)
  }

  predicate AtFrontier(src: string, pat: string, s: nat, p: nat, ep: nat)
    requires p < |pat| && pat[p] == '[' && ClassEnd(pat, p) == Ok(ep) && s <= |src|
  {
    var previous := if s == 0 then '\0' else src[s - 1];
    !MatchBracketClass(pat, p, ep - 1, previous) && MatchBracketClass(pat, p, ep - 1, At(src, s))
  }

  /** The capture a back reference names, if it may be named. */
  predicate ValidIndex(caps: seq<Capture>, digit: char) {
    '1' <= digit <= '9' && (digit - '1') as int < |caps| && caps[(digit - '1') as int].len != CAP_UNFINISHED
  }

  /** A position capture never repeats: its length, taken as unsigned, is longer than any text. */
  predicate Repeats(src: string, s: nat, cap: Capture)
    requires s <= |src| && cap.init + cap.len <= s
  {
    cap.len >= 0 && s + cap.len <= |src| && src[cap.init..cap.init + cap.len] == src[s..s + cap.len]
  }

  /** How many characters from `s` on the class at `p` accepts. */
  function MaxRun(src: string, pat: string, s: nat, p: nat, ep: nat): (n: nat)
    requires p < |pat| && ClassEnd(pat, p) == Ok(ep) && s <= |src|
    ensures s + n <= |src|
    ensures forall i :: s <= i < s + n ==> SingleMatch(src, pat, i, p, ep)
    ensures !SingleMatch(src, pat, s + n, p, ep)
    decreases |src| - s
  {
    if SingleMatch(src, pat, s, p, ep) then MaxRun(src, pat, s + 1, p, ep) + 1 else 0
  }

  /** All the outcomes of the pattern from `p` on, at `s` in the subject, in the order of preference. */
  function All(src: string, pat: string, s: nat, p: nat, caps: seq<Capture>): (r: seq<Outcome>)
    requires s <= |src| && p <= |pat| && CapsOk(caps, s)
    decreases |pat| - p, 0, 0
  {
    var item := ItemAt(pat, p);
    match item
    case End => [Match(s, caps)]
    case Open(position, next) =>
      if |caps| == LUA_MAXCAPTURES then [Error(TooManyCaptures)]
      else All(src, pat, s, next, caps + [Capture(s, if position then CAP_POSITION else CAP_UNFINISHED)])
    case Close(next) =>
      var l := ToClose(caps);
      if l == |caps| then [Error(InvalidPatternCapture)]
      else All(src, pat, s, next, caps[l := Capture(caps[l].init, s - caps[l].init)])
    case Anchor => if s == |src| then [Match(s, caps)] else []
    case Balance(next) =>
      var e := MatchBalance(src, s, pat[p + 2], pat[p + 3]);
      if e == 0 then [] else All(src, pat, e, next, caps)
    case Frontier(cls, next) => if AtFrontier(src, pat, s, cls, next) then All(src, pat, s, next, caps) else []
    case Back(digit, next) =>
      if !ValidIndex(caps, digit) then [Error(InvalidCaptureIndex)]
      else
        var cap := caps[(digit - '1') as int];
        if Repeats(src, s, cap) then All(src, pat, s + cap.len, next, caps) else []
    case Single(ep, suffix, next) =>
      var n := MaxRun(src, pat, s, p, ep);
      if suffix.Once? then (if n > 0 then All(src, pat, s + 1, next, caps) else [])
      else if suffix.Optional? then Longest(src, pat, s, next, caps, 0, if n > 0 then 1 else 0)
      else if suffix.Star? then Longest(src, pat, s, next, caps, 0, n)
      else if suffix.Plus? then (if n > 0 then Longest(src, pat, s, next, caps, 1, n) else [])
      else Shortest(src, pat, s, next, caps, 0, n)
    case Wrong(failure) => [Error(failure)]
  }

  /** With `hi` characters taken, then with one fewer, down to `lo`. */
  function Longest(src: string, pat: string, s: nat, next: nat, caps: seq<Capture>, lo: nat, hi: nat): seq<Outcome>
    requires lo <= hi && s + hi <= |src| && next <= |pat| && CapsOk(caps, s)
    decreases |pat| - next, 1, hi
  {
    All(src, pat, s + hi, next, caps) + (if hi == lo then [] else Longest(src, pat, s, next, caps, lo, hi - 1))
  }

  /** With `lo` characters taken, then with one more, up to `hi`. */
  function Shortest(src: string, pat: string, s: nat, next: nat, caps: seq<Capture>, lo: nat, hi: nat): seq<Outcome>
    requires lo <= hi && s + hi <= |src| && next <= |pat| && CapsOk(caps, s)
    decreases |pat| - next, 1, hi - lo
  {
    All(src, pat, s + lo, next, caps) + (if hi == lo then [] else Shortest(src, pat, s, next, caps, lo + 1, hi))
  }

  /** How many items from `p` on are matched by a recursive call. */
  function Nesting(pat: string, p: nat): nat
    requires p <= |pat|
    decreases |pat| - p
  {
    match ItemAt(pat, p)
    case Open(_, next) => 1 + Nesting(pat, next)
    case Close(next) => 1 + Nesting(pat, next)
    case Balance(next) => Nesting(pat, next)
    case Frontier(_, next) => Nesting(pat, next)
    case Back(_, next) => Nesting(pat, next)
    case Single(_, suffix, next) => (if suffix.Once? then 0 else 1) + Nesting(pat, next)
    case _ => 0
  }
}
