/** What each item of a pattern matches, said of its text and of the subject character by character. */
module PatternItems {
  import opened Pattern

  // ----- classes, as they are written -----

  datatype Part = One(c: char) | Span(lo: char, hi: char) | Named(letter: char)

  datatype Class = Any | Plain(c: char) | Escaped(letter: char) | Bracket(negated: bool, parts: seq<Part>)

  function PartText(p: Part): (t: string)
    ensures |t| > 0
  {
    match p
    case One(c) => [c]
    case Span(lo, hi) => [lo, '-', hi]
    case Named(letter) => ['%', letter]
  }

  function PartsText(parts: seq<Part>): string {
    if parts == [] then "" else PartText(parts[0]) + PartsText(parts[1..])
  }

  function ClassText(k: Class): (t: string)
    ensures |t| > 0
  {
    match k
    case Any => "."
    case Plain(c) => [c]
    case Escaped(letter) => ['%', letter]
    case Bracket(negated, parts) => (if negated then "[^" else "[") + PartsText(parts) + "]"
  }

  // ----- and what they accept -----

  /** The characters of a class letter, in the C locale. */
  predicate OfLetter(c: char, letter: char) {
    match letter
    case 'a' => 'A' <= c <= 'Z' || 'a' <= c <= 'z'
    case 'c' => c as int <= 31 || c as int == 127
    case 'd' => '0' <= c <= '9'
    case 'g' => 33 <= c as int <= 126
    case 'l' => 'a' <= c <= 'z'
    case 'p' => '!' <= c <= '/' || ':' <= c <= '@' || '[' <= c <= '`' || '{' <= c <= '~'
    case 's' => 9 <= c as int <= 13 || c as int == 32
    case 'u' => 'A' <= c <= 'Z'
    case 'w' => '0' <= c <= '9' || 'A' <= c <= 'Z' || 'a' <= c <= 'z'
    case 'x' => '0' <= c <= '9' || 'A' <= c <= 'F' || 'a' <= c <= 'f'
    case _ => c as int == 0
  }

  /** After a `%`: a class letter, its complement in upper case, or any other character for itself. */
  predicate OfEscape(c: char, letter: char) {
    match letter
    case 'a' => OfLetter(c, 'a') case 'A' => !OfLetter(c, 'a')
    case 'c' => OfLetter(c, 'c') case 'C' => !OfLetter(c, 'c')
    case 'd' => OfLetter(c, 'd') case 'D' => !OfLetter(c, 'd')
    case 'g' => OfLetter(c, 'g') case 'G' => !OfLetter(c, 'g')
    case 'l' => OfLetter(c, 'l') case 'L' => !OfLetter(c, 'l')
    case 'p' => OfLetter(c, 'p') case 'P' => !OfLetter(c, 'p')
    case 's' => OfLetter(c, 's') case 'S' => !OfLetter(c, 's')
    case 'u' => OfLetter(c, 'u') case 'U' => !OfLetter(c, 'u')
    case 'w' => OfLetter(c, 'w') case 'W' => !OfLetter(c, 'w')
    case 'x' => OfLetter(c, 'x') case 'X' => !OfLetter(c, 'x')
    case 'z' => OfLetter(c, 'z') case 'Z' => !OfLetter(c, 'z')
    case _ => c == letter
  }

  predicate OfPart(c: char, p: Part) {
    match p
    case One(x) => c == x
    case Span(lo, hi) => lo <= c <= hi
    case Named(letter) => OfEscape(c, letter)
  }

  /** A set is the union of its parts. */
  predicate OfParts(c: char, parts: seq<Part>) {
    exists i :: 0 <= i < |parts| && OfPart(c, parts[i])
  }

  predicate OfClass(c: char, k: Class) {
    match k
    case Any => true
    case Plain(x) => c == x
    case Escaped(letter) => OfEscape(c, letter)
    case Bracket(negated, parts) => OfParts(c, parts) != negated
  }

  /** A part that is read as it is written: a bracket can only come first, `%` always escapes, and a character before a
      `-` begins a range unless the `-` is the last. */
  predicate Clear(parts: seq<Part>, i: nat)
    requires i < |parts|
  {
    match parts[i]
    case One(c) =>
      && c != '%' && (c == ']' ==> i == 0)
      && (i + 1 < |parts| && PartText(parts[i + 1])[0] == '-' ==> i + 2 == |parts| && parts[i + 1] == One('-'))
    case Span(lo, hi) => lo != '%' && (lo == ']' ==> i == 0) && hi != ']' && hi != '%'
    case Named(_) => true
  }

  /** The text of the class is read as that class. */
  predicate Written(k: Class) {
    match k
    case Any => true
    case Plain(c) => c != '.' && c != '%' && c != '['
    case Escaped(_) => true
    case Bracket(negated, parts) =>
      && parts != [] && (!negated ==> PartText(parts[0])[0] != '^')
      && forall i :: 0 <= i < |parts| ==> Clear(parts, i)
  }

  /** `t` stands at `p`. */
  predicate Here(pat: string, p: nat, t: string) {
    p + |t| <= |pat| && pat[p..p + |t|] == t
  }

  // ----- reading a class -----

  lemma HereAt(pat: string, p: nat, t: string, i: nat)
    requires Here(pat, p, t) && i < |t|
    ensures pat[p + i] == t[i]
  {
    assert pat[p..p + |t|][i] == pat[p + i];
  }

  lemma HereRest(pat: string, p: nat, a: string, b: string)
    requires Here(pat, p, a + b)
    ensures Here(pat, p, a) && Here(pat, p + |a|, b)
  {
    assert pat[p..p + |a|] == pat[p..p + |a + b|][..|a|] == a;
    assert pat[p + |a|..p + |a| + |b|] == pat[p..p + |a + b|][|a|..] == b;
  }

  lemma MatchClassIs(c: char, letter: char)
    ensures MatchClass(c, letter) <==> OfEscape(c, letter)
  {
  }

  /** The part at index `i` and what follows it. */
  lemma PartsStep(parts: seq<Part>, i: nat)
    requires i < |parts|
    ensures PartsText(parts[i..]) == PartText(parts[i]) + PartsText(parts[i + 1..])
  {
    assert parts[i..][1..] == parts[i + 1..];
  }

  /** Reading a set from part `i` on, which begins at `q`: where it ends. */
  lemma {:induction false} SetEnds(pat: string, q: nat, parts: seq<Part>, i: nat)
    requires i < |parts| && (forall j :: i <= j < |parts| ==> Clear(parts, j))
    requires Here(pat, q, PartsText(parts[i..]) + "]")
    ensures BracketEnd(pat, q) == Ok(q + |PartsText(parts[i..])| + 1)
    decreases |parts| - i
  {
    hide Here, BracketEnd, Clear, PartText;
    var t, rest := PartText(parts[i]), PartsText(parts[i + 1..]) + "]";
    PartsStep(parts, i);
    assert PartsText(parts[i..]) + "]" == t + rest;
    HereRest(pat, q, t, rest);
    HereInside(pat, q + |t|, rest);
    HereAt(pat, q + |t|, rest, 0);
    if i + 1 < |parts| {
      SetEnds(pat, q + |t|, parts, i + 1);
      PartsStep(parts, i + 1);
      FirstNotBracket(parts, i + 1);
    }
    PartRead(pat, q, parts, i);
  }

  lemma HereInside(pat: string, p: nat, t: string)
    requires Here(pat, p, t)
    ensures p + |t| <= |pat|
  {
  }

  /** Without a bracket after its parts a set has no end. */
  lemma {:induction false} SetUnfinished(pat: string, q: nat, parts: seq<Part>, i: nat)
    requires i < |parts| && (forall j :: i <= j < |parts| ==> Clear(parts, j))
    requires Here(pat, q, PartsText(parts[i..])) && q + |PartsText(parts[i..])| == |pat|
    ensures BracketEnd(pat, q) == Bad(MissingBracket)
    decreases |parts| - i
  {
    hide Here, BracketEnd, Clear, PartText;
    var t, rest := PartText(parts[i]), PartsText(parts[i + 1..]);
    PartsStep(parts, i);
    HereRest(pat, q, t, rest);
    if i + 1 < |parts| {
      PartsStep(parts, i + 1);
      HereAt(pat, q + |t|, rest, 0);
      SetUnfinished(pat, q + |t|, parts, i + 1);
      FirstNotBracket(parts, i + 1);
      PartRead(pat, q, parts, i);
    } else {
      assert parts[i + 1..] == [];
      PartLast(pat, q, parts, i);
    }
  }

  lemma PartLast(pat: string, q: nat, parts: seq<Part>, i: nat)
    requires i < |parts| && Clear(parts, i) && Here(pat, q, PartText(parts[i])) && q + |PartText(parts[i])| == |pat|
    ensures BracketEnd(pat, q) == Bad(MissingBracket)
  {
    var t := PartText(parts[i]);
    HereAt(pat, q, t, 0);
    assert BracketEnd(pat, |pat|) == Bad(MissingBracket);
    if parts[i].Span? {
      HereAt(pat, q, t, 1);
      HereAt(pat, q, t, 2);
      assert BracketEnd(pat, q) == BracketEnd(pat, q + 1) == BracketEnd(pat, q + 2);
    }
  }

  lemma FirstNotBracket(parts: seq<Part>, i: nat)
    requires 0 < i < |parts| && Clear(parts, i)
    ensures PartText(parts[i])[0] != ']'
  {
  }

  lemma PartRead(pat: string, q: nat, parts: seq<Part>, i: nat)
    requires i < |parts| && Clear(parts, i)
    requires Here(pat, q, PartText(parts[i])) && q + |PartText(parts[i])| < |pat|
    ensures var q' := q + |PartText(parts[i])|; BracketEnd(pat, q) == if pat[q'] == ']' then Ok(q' + 1) else BracketEnd(pat, q')
  {
    var t := PartText(parts[i]);
    HereAt(pat, q, t, 0);
    if parts[i].Span? {
      HereAt(pat, q, t, 1);
      HereAt(pat, q, t, 2);
      assert BracketEnd(pat, q) == BracketEnd(pat, q + 1) == BracketEnd(pat, q + 2);
    }
  }

  /** Who is in a set, read from part `i` on, which begins at `q`. */
  lemma {:induction false} SetMembers(pat: string, q: nat, ec: nat, parts: seq<Part>, i: nat, c: char)
    requires i <= |parts| && forall j :: i <= j < |parts| ==> Clear(parts, j)
    requires ec < |pat| && ec == q + |PartsText(parts[i..])| && Here(pat, q, PartsText(parts[i..]) + "]")
    ensures InSet(pat, q, ec, c) <==> exists j :: i <= j < |parts| && OfPart(c, parts[j])
    decreases |parts| - i
  {
    if i < |parts| {
      var t, rest := PartText(parts[i]), PartsText(parts[i + 1..]) + "]";
      PartsStep(parts, i);
      assert PartsText(parts[i..]) + "]" == t + rest;
      HereRest(pat, q, t, rest);
      SetMembers(pat, q + |t|, ec, parts, i + 1, c);
      MemberStep(pat, q, ec, parts, i, c);
    }
  }

  lemma MemberStep(pat: string, q: nat, ec: nat, parts: seq<Part>, i: nat, c: char)
    requires i < |parts| && Clear(parts, i) && ec < |pat|
    requires Here(pat, q, PartText(parts[i])) && Here(pat, q + |PartText(parts[i])|, PartsText(parts[i + 1..]) + "]")
    requires ec == q + |PartText(parts[i])| + |PartsText(parts[i + 1..])|
    ensures InSet(pat, q, ec, c) <==> OfPart(c, parts[i]) || InSet(pat, q + |PartText(parts[i])|, ec, c)
  {
    var t, rest := PartText(parts[i]), PartsText(parts[i + 1..]) + "]";
    HereAt(pat, q, t, 0);
    HereAt(pat, q + |t|, rest, 0);
    if !parts[i].One? { HereAt(pat, q, t, 1); }
    if parts[i].Span? { HereAt(pat, q, t, 2); }
    if i + 1 < |parts| {
      PartsStep(parts, i + 1);
      assert rest[0] == PartText(parts[i + 1])[0];
      if i + 2 == |parts| { assert parts[i + 2..] == []; }
    } else {
      assert parts[i + 1..] == [];
    }
    hide Here;
    if parts[i].Named? { MatchClassIs(c, parts[i].letter); }
  }

  lemma BracketRead(pat: string, p: nat, negated: bool, parts: seq<Part>)
    requires var k := Bracket(negated, parts); Here(pat, p, ClassText(k)) && Written(k)
    ensures var k := Bracket(negated, parts); var ep := p + |ClassText(k)|;
            && p + 1 < ep - 1 < |pat| && pat[p] == '[' && ClassEnd(pat, p) == Ok(ep)
            && forall c: char :: MatchBracketClass(pat, p, ep - 1, c) <==> OfClass(c, k)
  {
    var k := Bracket(negated, parts);
    var open, body := if negated then "[^" else "[", PartsText(parts) + "]";
    var ep, q := p + |ClassText(k)|, p + |open|;
    assert ClassText(k) == open + body;
    HereRest(pat, p, open, body);
    OpenRead(pat, p, negated, parts);
    assert parts[0..] == parts;
    SetEnds(pat, q, parts, 0);
    forall c: char ensures MatchBracketClass(pat, p, ep - 1, c) <==> OfClass(c, k) {
      hide Here, InSet, OfPart, Clear, BracketEnd, PartsText;
      SetMembers(pat, q, ep - 1, parts, 0, c);
    }
  }

  lemma OpenRead(pat: string, p: nat, negated: bool, parts: seq<Part>)
    requires parts != [] && (!negated ==> PartText(parts[0])[0] != '^')
    requires var open := if negated then "[^" else "["; Here(pat, p, open) && Here(pat, p + |open|, PartsText(parts) + "]")
    ensures p + 1 < |pat| && pat[p] == '[' && (pat[p + 1] == '^' <==> negated)
  {
    var open, body := if negated then "[^" else "[", PartsText(parts) + "]";
    HereAt(pat, p, open, 0);
    if negated { HereAt(pat, p, open, 1); }
    assert parts[0..] == parts;
    PartsStep(parts, 0);
    assert body[0] == PartText(parts[0])[0];
    HereAt(pat, p + |open|, body, 0);
  }

  /** A class written at `p` ends where its text ends, and accepts what it lists. */
  lemma ClassRead(pat: string, p: nat, k: Class)
    requires Here(pat, p, ClassText(k)) && Written(k)
    ensures p < |pat| && ClassEnd(pat, p) == Ok(p + |ClassText(k)|)
    ensures forall src: string, s: nat ::
              SingleMatch(src, pat, s, p, p + |ClassText(k)|) <==> s < |src| && OfClass(src[s], k)
  {
    hide Here, Written, OfClass, ClassText, ClassEnd, SingleMatch;
    if k.Bracket? { BracketClass(pat, p, k.negated, k.parts); } else { SimpleRead(pat, p, k); }
  }

  lemma BracketClass(pat: string, p: nat, negated: bool, parts: seq<Part>)
    requires var k := Bracket(negated, parts); Here(pat, p, ClassText(k)) && Written(k)
    ensures var k := Bracket(negated, parts); var ep := p + |ClassText(k)|;
            && p < |pat| && ClassEnd(pat, p) == Ok(ep)
            && forall src: string, s: nat :: SingleMatch(src, pat, s, p, ep) <==> s < |src| && OfClass(src[s], k)
  {
    hide Here, Written, OfClass, ClassText, ClassEnd, SingleMatch, MatchBracketClass;
    BracketRead(pat, p, negated, parts);
    var k := Bracket(negated, parts);
    forall src: string, s: nat ensures SingleMatch(src, pat, s, p, p + |ClassText(k)|) <==> s < |src| && OfClass(src[s], k) {
      BracketSingle(pat, p, k, src, s);
    }
  }

  lemma BracketSingle(pat: string, p: nat, k: Class, src: string, s: nat)
    requires var ep := p + |ClassText(k)|; p < ep - 1 < |pat| && pat[p] == '[' && ClassEnd(pat, p) == Ok(ep)
    requires forall c: char :: MatchBracketClass(pat, p, p + |ClassText(k)| - 1, c) <==> OfClass(c, k)
    ensures SingleMatch(src, pat, s, p, p + |ClassText(k)|) <==> s < |src| && OfClass(src[s], k)
  {
    hide MatchBracketClass, OfClass, ClassText, ClassEnd;
  }

  lemma EscapedSingle(pat: string, p: nat, letter: char, src: string, s: nat)
    requires p + 1 < |pat| && pat[p] == '%' && pat[p + 1] == letter
    ensures SingleMatch(src, pat, s, p, p + 2) <==> s < |src| && OfEscape(src[s], letter)
  {
    hide MatchClass, OfEscape;
    if s < |src| { MatchClassIs(src[s], letter); }
  }

  lemma PlainSingle(pat: string, p: nat, c: char, src: string, s: nat)
    requires p < |pat| && pat[p] == c && c != '.' && c != '%' && c != '['
    ensures SingleMatch(src, pat, s, p, p + 1) <==> s < |src| && src[s] == c
  {
  }

  lemma SimpleRead(pat: string, p: nat, k: Class)
    requires !k.Bracket? && Here(pat, p, ClassText(k)) && Written(k)
    ensures p < |pat| && ClassEnd(pat, p) == Ok(p + |ClassText(k)|)
    ensures forall src: string, s: nat ::
              SingleMatch(src, pat, s, p, p + |ClassText(k)|) <==> s < |src| && OfClass(src[s], k)
  {
    hide MatchClass, OfEscape;
    match k
    case Escaped(letter) =>
      HereAt(pat, p, ClassText(k), 0);
      HereAt(pat, p, ClassText(k), 1);
      forall src: string, s: nat ensures SingleMatch(src, pat, s, p, p + 2) <==> s < |src| && OfClass(src[s], k) {
        EscapedSingle(pat, p, letter, src, s);
      }
    case Any => HereAt(pat, p, ClassText(k), 0);
    case Plain(c) =>
      HereAt(pat, p, ClassText(k), 0);
      forall src: string, s: nat ensures SingleMatch(src, pat, s, p, p + 1) <==> s < |src| && OfClass(src[s], k) {
        PlainSingle(pat, p, c, src, s);
      }
    case Bracket(_, _) =>
  }

  // ----- single characters and their repetition -----

  /** The first `n` characters from `s` on are in the class, and the one after them, if there is one, is not. */
  predicate Run(src: string, s: nat, k: Class, n: nat) {
    && s + n <= |src| && (forall i :: s <= i < s + n ==> OfClass(src[i], k))
    && (s + n < |src| ==> !OfClass(src[s + n], k))
  }

  /** With `c` characters taken for each count `c` in turn. */
  function Tried(src: string, pat: string, s: nat, next: nat, caps: seq<Capture>, counts: seq<nat>): seq<Outcome>
    requires next <= |pat| && CapsOk(caps, s) && forall i :: 0 <= i < |counts| ==> s + counts[i] <= |src|
  {
    if counts == [] then [] else All(src, pat, s + counts[0], next, caps) + Tried(src, pat, s, next, caps, counts[1..])
  }

  function Down(hi: nat, lo: nat): (r: seq<nat>)
    ensures forall i :: 0 <= i < |r| ==> r[i] == hi - i
    ensures lo <= hi ==> |r| == hi - lo + 1
    ensures lo > hi ==> r == []
  {
    if lo > hi then [] else seq(hi - lo + 1, i requires 0 <= i <= hi - lo => hi - i)
  }

  function Up(lo: nat, hi: nat): (r: seq<nat>)
    ensures forall i :: 0 <= i < |r| ==> r[i] == lo + i
    ensures lo <= hi ==> |r| == hi - lo + 1
    ensures lo > hi ==> r == []
  {
    if lo > hi then [] else seq(hi - lo + 1, i requires 0 <= i <= hi - lo => lo + i)
  }

  lemma {:induction false} LongestTried(src: string, pat: string, s: nat, next: nat, caps: seq<Capture>, lo: nat, hi: nat)
    requires lo <= hi && s + hi <= |src| && next <= |pat| && CapsOk(caps, s)
    ensures Longest(src, pat, s, next, caps, lo, hi) == Tried(src, pat, s, next, caps, Down(hi, lo))
    decreases hi
  {
    hide All;
    if lo < hi {
      LongestTried(src, pat, s, next, caps, lo, hi - 1);
      assert Down(hi, lo)[1..] == Down(hi - 1, lo);
    } else {
      assert Down(hi, lo)[1..] == [];
    }
  }

  lemma {:induction false} ShortestTried(src: string, pat: string, s: nat, next: nat, caps: seq<Capture>, lo: nat, hi: nat)
    requires lo <= hi && s + hi <= |src| && next <= |pat| && CapsOk(caps, s)
    ensures Shortest(src, pat, s, next, caps, lo, hi) == Tried(src, pat, s, next, caps, Up(lo, hi))
    decreases hi - lo
  {
    hide All;
    if lo < hi {
      ShortestTried(src, pat, s, next, caps, lo + 1, hi);
      assert Up(lo, hi)[1..] == Up(lo + 1, hi);
    } else {
      assert Up(lo, hi)[1..] == [];
    }
  }

  lemma RunIs(src: string, pat: string, s: nat, p: nat, k: Class, n: nat)
    requires Here(pat, p, ClassText(k)) && Written(k) && Run(src, s, k, n)
    ensures p < |pat| && ClassEnd(pat, p) == Ok(p + |ClassText(k)|) && MaxRun(src, pat, s, p, p + |ClassText(k)|) == n
  {
    ClassRead(pat, p, k);
    var ep := p + |ClassText(k)|;
    var m := MaxRun(src, pat, s, p, ep);
    hide SingleMatch, OfClass, ClassEnd, Here, Written, ClassText, MaxRun;
    assert !SingleMatch(src, pat, s + m, p, ep) && !SingleMatch(src, pat, s + n, p, ep);
  }

  /** A class at `p` that is not the beginning of another kind of item. */
  predicate StandsAlone(pat: string, p: nat, k: Class) {
    match k
    case Plain(c) => c != '(' && c != ')' && (c == '$' ==> p + 1 < |pat|)
    case Escaped(letter) => letter != 'b' && letter != 'f' && !('0' <= letter <= '9')
    case _ => true
  }

  lemma SingleItem(pat: string, p: nat, k: Class)
    requires Here(pat, p, ClassText(k)) && Written(k) && StandsAlone(pat, p, k)
    ensures ItemAt(pat, p) == SingleAt(pat, p)
  {
    HereAt(pat, p, ClassText(k), 0);
    if k.Escaped? { HereAt(pat, p, ClassText(k), 1); }
    hide SingleAt, PartsText, Clear;
  }

  /** A class, alone or repeated: the counts of characters it takes, in the order in which they are tried. */
  lemma ClassOutcomes(src: string, pat: string, s: nat, p: nat, caps: seq<Capture>, k: Class, n: nat)
    requires CapsOk(caps, s) && Here(pat, p, ClassText(k)) && Written(k) && StandsAlone(pat, p, k) && Run(src, s, k, n)
    ensures var e := p + |ClassText(k)|; var suffix := if e < |pat| then pat[e] else '\0';
            All(src, pat, s, p, caps) ==
            match suffix
            case '*' => Tried(src, pat, s, e + 1, caps, Down(n, 0))
            case '+' => Tried(src, pat, s, e + 1, caps, Down(n, 1))
            case '-' => Tried(src, pat, s, e + 1, caps, Up(0, n))
            case '?' => Tried(src, pat, s, e + 1, caps, if n > 0 then [1, 0] else [0])
            case _ => if n > 0 then All(src, pat, s + 1, e, caps) else []
  {
    hide Here, Written, StandsAlone, Run, ClassText, ClassEnd, MaxRun, Tried, Longest, Shortest, All, ItemAt, Down, Up;
    SingleItem(pat, p, k);
    RunIs(src, pat, s, p, k, n);
    var e := p + |ClassText(k)|;
    SingleOutcomes(src, pat, s, p, caps, e, n);
    if e < |pat| {
      var next := e + 1;
      LongestTried(src, pat, s, next, caps, 0, n);
      ShortestTried(src, pat, s, next, caps, 0, n);
      if n > 0 {
        LongestTried(src, pat, s, next, caps, 1, n);
        LongestTried(src, pat, s, next, caps, 0, 1);
      }
      LongestTried(src, pat, s, next, caps, 0, 0);
      FewCounts(src, pat, s, next, caps);
    }
  }

  lemma FewCounts(src: string, pat: string, s: nat, next: nat, caps: seq<Capture>)
    requires s <= |src| && next <= |pat| && CapsOk(caps, s)
    ensures Down(1, 0) == [1, 0] && Down(0, 0) == [0] && Down(0, 1) == [] && Tried(src, pat, s, next, caps, []) == []
  {
    hide All;
  }

  lemma SingleOutcomes(src: string, pat: string, s: nat, p: nat, caps: seq<Capture>, ep: nat, n: nat)
    requires CapsOk(caps, s) && p < |pat| && ItemAt(pat, p) == SingleAt(pat, p) && ClassEnd(pat, p) == Ok(ep)
    requires s <= |src| && MaxRun(src, pat, s, p, ep) == n
    ensures var suffix := if ep < |pat| then pat[ep] else '\0';
            All(src, pat, s, p, caps) ==
            match suffix
            case '*' => Longest(src, pat, s, ep + 1, caps, 0, n)
            case '+' => if n > 0 then Longest(src, pat, s, ep + 1, caps, 1, n) else []
            case '-' => Shortest(src, pat, s, ep + 1, caps, 0, n)
            case '?' => Longest(src, pat, s, ep + 1, caps, 0, if n > 0 then 1 else 0)
            case _ => if n > 0 then All(src, pat, s + 1, ep, caps) else []
  {
    hide MaxRun, Longest, Shortest, ClassEnd, CapsOk;
  }
  // ----- the other items -----

  /** How often `c` occurs in the first `n` characters from `s` on. */
  function Count(src: string, s: nat, n: nat, c: char): nat
    requires s + n <= |src|
  {
    if n == 0 then 0 else Count(src, s, n - 1, c) + if src[s + n - 1] == c then 1 else 0
  }

  /** The `n` characters from `s` on, the first of which is `b`, have as many `e` as they have `b`; where the two are
      the same, one more after the first. */
  predicate Even(src: string, s: nat, n: nat, b: char, e: char)
    requires 0 < n && s + n <= |src|
  {
    Count(src, s + 1, n - 1, e) == 1 + if b == e then 0 else Count(src, s + 1, n - 1, b)
  }

  /** The shortest balanced text at `s` has `n` characters. */
  ghost predicate Balanced(src: string, s: nat, n: nat, b: char, e: char) {
    && 0 < n && s + n <= |src| && src[s] == b
    && Even(src, s, n, b, e) && forall m :: 0 < m < n ==> !Even(src, s, m, b, e)
  }

  /** With `depth` more opened than closed in the `n` characters read, the rest is read to where they are even. */
  lemma {:induction false} BalanceEnds(src: string, s: nat, n: nat, b: char, e: char, depth: nat)
    requires 0 < n && s + n <= |src| && depth > 0
    requires 1 + (if b == e then 0 else Count(src, s + 1, n - 1, b)) == depth + Count(src, s + 1, n - 1, e)
    ensures var r := BalanceEnd(src, s + n, b, e, depth);
            if r == 0 then forall m :: n <= m <= |src| - s ==> !Even(src, s, m, b, e)
            else r > s + n && Even(src, s, r - s, b, e) && forall m :: n <= m < r - s ==> !Even(src, s, m, b, e)
    decreases |src| - s - n
  {
    if s + n < |src| {
      var c := src[s + n];
      if !(c == e && depth == 1) {
        BalanceEnds(src, s, n + 1, b, e, if c == e then depth - 1 else if c == b then depth + 1 else depth);
      }
    }
  }

  /** `%b`: past the shortest balanced text, if there is one. */
  lemma BalanceOutcomes(src: string, pat: string, s: nat, p: nat, caps: seq<Capture>, b: char, e: char, n: nat)
    requires s <= |src| && CapsOk(caps, s) && Here(pat, p, ['%', 'b', b, e])
    ensures Balanced(src, s, n, b, e) ==> All(src, pat, s, p, caps) == All(src, pat, s + n, p + 4, caps)
    ensures (forall m :: !Balanced(src, s, m, b, e)) ==> All(src, pat, s, p, caps) == []
  {
    var t := ['%', 'b', b, e];
    HereAt(pat, p, t, 0);
    HereAt(pat, p, t, 1);
    HereAt(pat, p, t, 2);
    HereAt(pat, p, t, 3);
    assert ItemAt(pat, p) == Balance(p + 4);
    if s < |src| && src[s] == b {
      BalanceEnds(src, s, 1, b, e, 1);
      var r := BalanceEnd(src, s + 1, b, e, 1);
      if r != 0 { assert Balanced(src, s, r - s, b, e); }
    }
    hide Even, BalanceEnd;
  }

  /** `%f`: before the next character, which is in the set, or the end counted as a NUL, and after one that is not, or
      the beginning counted in the same way. */
  lemma FrontierOutcomes(src: string, pat: string, s: nat, p: nat, caps: seq<Capture>, negated: bool, parts: seq<Part>)
    requires var k := Bracket(negated, parts);
             s <= |src| && CapsOk(caps, s) && Here(pat, p, "%f") && Here(pat, p + 2, ClassText(k)) && Written(k)
    ensures var k := Bracket(negated, parts);
            var before, after := if s > 0 then src[s - 1] else 0 as char, if s < |src| then src[s] else 0 as char;
            && p + 2 + |ClassText(k)| <= |pat|
            && All(src, pat, s, p, caps) ==
               if !OfClass(before, k) && OfClass(after, k) then All(src, pat, s, p + 2 + |ClassText(k)|, caps) else []
  {
    hide OfClass, MatchBracketClass, ClassText, Written, Here, ClassEnd, ItemAt, CapsOk;
    HereAt(pat, p, "%f", 0);
    HereAt(pat, p, "%f", 1);
    BracketRead(pat, p + 2, negated, parts);
    HereInside(pat, p + 2, ClassText(Bracket(negated, parts)));
    FrontierAt(pat, p, p + 2 + |ClassText(Bracket(negated, parts))|);
  }

  lemma FrontierAt(pat: string, p: nat, ep: nat)
    requires p + 2 < |pat| && pat[p] == '%' && pat[p + 1] == 'f' && pat[p + 2] == '[' && ClassEnd(pat, p + 2) == Ok(ep)
    ensures ItemAt(pat, p) == Frontier(p + 2, ep)
  {
    hide ClassEnd;
  }

  /** `(` and `()`: one more capture, of which there are at most 32. */
  lemma OpenOutcomes(src: string, pat: string, s: nat, p: nat, caps: seq<Capture>)
    requires s <= |src| && CapsOk(caps, s) && p < |pat| && pat[p] == '('
    ensures All(src, pat, s, p, caps) ==
            if |caps| >= 32 then [Error(TooManyCaptures)]
            else if p + 1 < |pat| && pat[p + 1] == ')' then All(src, pat, s, p + 2, caps + [Capture(s, -2)])
            else All(src, pat, s, p + 1, caps + [Capture(s, -1)])
  {
  }

  /** `)` closes the last capture still open. */
  lemma CloseOutcomes(src: string, pat: string, s: nat, p: nat, caps: seq<Capture>, l: nat)
    requires s <= |src| && CapsOk(caps, s) && p < |pat| && pat[p] == ')'
    ensures l < |caps| && caps[l].len == -1 && (forall i :: l < i < |caps| ==> caps[i].len != -1) ==>
              All(src, pat, s, p, caps) == All(src, pat, s, p + 1, caps[l := Capture(caps[l].init, s - caps[l].init)])
    ensures (forall i :: 0 <= i < |caps| ==> caps[i].len != -1) ==> All(src, pat, s, p, caps) == [Error(InvalidPatternCapture)]
  {
    assert ItemAt(pat, p) == Close(p + 1);
  }

  /** `%1` to `%9`: the text of that capture again, which must be closed; a position is never repeated. */
  lemma BackOutcomes(src: string, pat: string, s: nat, p: nat, caps: seq<Capture>, d: nat)
    requires s <= |src| && CapsOk(caps, s) && p + 1 < |pat| && pat[p] == '%' && d <= 9 && pat[p + 1] == "0123456789"[d]
    ensures if d == 0 || d > |caps| || caps[d - 1].len == -1 then All(src, pat, s, p, caps) == [Error(InvalidCaptureIndex)]
            else
              var (i, n) := (caps[d - 1].init, caps[d - 1].len);
              All(src, pat, s, p, caps) ==
              if n >= 0 && s + n <= |src| && src[i..i + n] == src[s..s + n] then All(src, pat, s + n, p + 2, caps) else []
  {
    assert ItemAt(pat, p) == Back(pat[p + 1], p + 2);
  }

  /** A last `$` is the end of the subject; the end of the pattern is a match. */
  lemma EndOutcomes(src: string, pat: string, s: nat, caps: seq<Capture>)
    requires s <= |src| && CapsOk(caps, s)
    ensures All(src, pat, s, |pat|, caps) == [Match(s, caps)]
    ensures pat != [] && pat[|pat| - 1] == '$' ==>
              All(src, pat, s, |pat| - 1, caps) == if s == |src| then [Match(s, caps)] else []
  {
  }

  /** A set that is not closed, whatever its parts, a bracket after a `%` among them, is an error. */
  lemma OpenSetOutcomes(src: string, pat: string, s: nat, p: nat, caps: seq<Capture>, negated: bool, parts: seq<Part>)
    requires s <= |src| && CapsOk(caps, s) && parts != [] && (!negated ==> PartText(parts[0])[0] != '^')
    requires forall i :: 0 <= i < |parts| ==> Clear(parts, i)
    requires p <= |pat| && pat[p..] == (if negated then "[^" else "[") + PartsText(parts)
    ensures All(src, pat, s, p, caps) == [Error(MissingBracket)]
  {
    var open, body := if negated then "[^" else "[", PartsText(parts);
    assert pat[p..p + |open + body|] == open + body;
    HereRest(pat, p, open, body);
    HereAt(pat, p, open, 0);
    if negated { HereAt(pat, p, open, 1); }
    assert parts[0..] == parts;
    PartsStep(parts, 0);
    HereAt(pat, p + |open|, body, 0);
    SetUnfinished(pat, p + |open|, parts, 0);
    UnfinishedItem(pat, p);
  }

  lemma UnfinishedItem(pat: string, p: nat)
    requires p < |pat| && pat[p] == '[' && BracketEnd(pat, if At(pat, p + 1) == '^' then p + 2 else p + 1) == Bad(MissingBracket)
    ensures ItemAt(pat, p) == Wrong(MissingBracket)
  {
    hide BracketEnd;
  }

  lemma {:induction false} NoBracket(pat: string, q: nat)
    requires q <= |pat| && ']' !in pat[q..]
    ensures BracketEnd(pat, q) == Bad(MissingBracket)
    decreases |pat| - q
  {
    if q < |pat| {
      var q' := if pat[q] == '%' && q + 1 < |pat| then q + 2 else q + 1;
      assert q' < |pat| ==> pat[q'] == pat[q..][q' - q];
      assert forall c :: c in pat[q'..] ==> c in pat[q..];
      NoBracket(pat, q');
    }
  }

  /** What cannot be read raises an error. */
  lemma WrongOutcomes(src: string, pat: string, s: nat, p: nat, caps: seq<Capture>)
    requires s <= |src| && CapsOk(caps, s) && p < |pat|
    ensures pat[p..] == "%" ==> All(src, pat, s, p, caps) == [Error(EndsWithPercent)]
    ensures Here(pat, p, "%b") && p + 4 > |pat| ==> All(src, pat, s, p, caps) == [Error(MissingBalance)]
    ensures Here(pat, p, "%f") && !Here(pat, p, "%f[") ==> All(src, pat, s, p, caps) == [Error(MissingFrontier)]
    ensures pat[p] == '[' && ']' !in pat[p..] ==> All(src, pat, s, p, caps) == [Error(MissingBracket)]
  {
    if pat[p..] == "%" {
      assert |pat[p..]| == 1 && pat[p..][0] == '%';
    }
    if Here(pat, p, "%b") {
      HereAt(pat, p, "%b", 0);
      HereAt(pat, p, "%b", 1);
    }
    if Here(pat, p, "%f") {
      HereAt(pat, p, "%f", 0);
      HereAt(pat, p, "%f", 1);
      if p + 2 < |pat| && pat[p + 2] == '[' { assert pat[p..p + 3] == "%f["; }
    }
    if pat[p] == '[' && ']' !in pat[p..] {
      var q := if At(pat, p + 1) == '^' then p + 2 else p + 1;
      assert forall c :: c in pat[q..] ==> c in pat[p..];
      NoBracket(pat, q);
    }
  }
}
