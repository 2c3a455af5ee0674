/** `string.find` without a pattern: a text with no special character is searched for as it is, and that is what the
    matcher would come to, except where the text has a `)`. */
module PlainFind {
  import opened Wrappers
  import opened Pattern
  import opened PatternDepth
  import opened Matcher

  const SPECIALS := "^$*+?.([%-"

  /** `nospecials` */
  predicate NoSpecials(pat: string) {
    forall i :: 0 <= i < |pat| ==> pat[i] !in SPECIALS
  }

  /** `t` stands at `k`. */
  predicate StandsAt(src: string, k: nat, t: string) {
    k + |t| <= |src| && src[k..k + |t|] == t
  }

  // ----- what the matcher makes of such a text -----

  /** Where the first `)` from `p` on is, or the end. */
  function FirstClose(pat: string, p: nat): (q: nat)
    requires p <= |pat|
    ensures p <= q <= |pat| && (forall i :: p <= i < q ==> pat[i] != ')') && (q < |pat| ==> pat[q] == ')')
    decreases |pat| - p
  {
    if p == |pat| || pat[p] == ')' then p else FirstClose(pat, p + 1)
  }

  lemma Ordinary(c: char)
    requires c !in SPECIALS
    ensures c != '(' && c != '$' && c != '%' && c != '[' && c != '.' && SuffixOf(c) == Once
  {
    assert SPECIALS[6] == '(' && SPECIALS[1] == '$' && SPECIALS[8] == '%' && SPECIALS[7] == '[' && SPECIALS[5] == '.';
    assert SPECIALS[2] == '*' && SPECIALS[3] == '+' && SPECIALS[4] == '?' && SPECIALS[9] == '-';
  }

  /** A character that is neither special nor a `)` is an item of its own. */
  lemma LiteralItem(src: string, pat: string, s: nat, p: nat)
    requires s <= |src| && p < |pat| && NoSpecials(pat) && pat[p] != ')'
    ensures ItemAt(pat, p) == Single(p + 1, Once, p + 1)
    ensures MaxRun(src, pat, s, p, p + 1) > 0 <==> s < |src| && src[s] == pat[p]
  {
    Ordinary(pat[p]);
    if p + 1 < |pat| { Ordinary(pat[p + 1]); }
    hide NoSpecials;
    assert ClassEnd(pat, p) == Ok(p + 1) && SuffixOf(At(pat, p + 1)) == Once;
    assert SingleMatch(src, pat, s, p, p + 1) <==> s < |src| && src[s] == pat[p];
  }

  /** The outcomes of such a text: it stands there or not, and a `)` after what stands there is an error. */
  function LiteralOutcomes(src: string, pat: string, s: nat, p: nat): seq<Outcome>
    requires p <= |pat|
  {
    var q := FirstClose(pat, p);
    if !StandsAt(src, s, pat[p..q]) then []
    else if q < |pat| then [Error(InvalidPatternCapture)]
    else [Match(s + (q - p), [])]
  }

  /** It is passed where it is, and nothing else is tried. */
  lemma LiteralStep(src: string, pat: string, s: nat, p: nat)
    requires s <= |src| && p < |pat| && NoSpecials(pat) && pat[p] != ')'
    ensures All(src, pat, s, p, []) == if s < |src| && src[s] == pat[p] then All(src, pat, s + 1, p + 1, []) else []
  {
    LiteralItem(src, pat, s, p);
    hide ItemAt, MaxRun, NoSpecials;
  }

  lemma {:induction false} LiteralAll(src: string, pat: string, s: nat, p: nat)
    requires s <= |src| && p <= |pat| && NoSpecials(pat)
    ensures All(src, pat, s, p, []) == LiteralOutcomes(src, pat, s, p)
    decreases |pat| - p
  {
    if p == |pat| || pat[p] == ')' {
      LiteralEnd(src, pat, s, p);
    } else {
      hide All, LiteralOutcomes, NoSpecials, StandsAt;
      LiteralStep(src, pat, s, p);
      OutcomesStep(src, pat, s, p);
      if s < |src| && src[s] == pat[p] { LiteralAll(src, pat, s + 1, p + 1); }
    }
  }

  lemma OutcomesStep(src: string, pat: string, s: nat, p: nat)
    requires s <= |src| && p < |pat| && pat[p] != ')'
    ensures LiteralOutcomes(src, pat, s, p) ==
            if s < |src| && src[s] == pat[p] then LiteralOutcomes(src, pat, s + 1, p + 1) else []
  {
    var q := FirstClose(pat, p);
    assert q == FirstClose(pat, p + 1);
    hide FirstClose, StandsAt;
    StandsOn(src, s, pat, p, q);
    assert s + (q - p) == s + 1 + (q - (p + 1));
  }

  lemma LiteralEnd(src: string, pat: string, s: nat, p: nat)
    requires s <= |src| && p <= |pat| && (p < |pat| ==> pat[p] == ')')
    ensures All(src, pat, s, p, []) == LiteralOutcomes(src, pat, s, p)
  {
    assert pat[p..p] == [] && src[s..s] == [];
    assert ItemAt(pat, p) == if p == |pat| then End else Close(p + 1);
  }

  lemma StandsOn(src: string, s: nat, pat: string, p: nat, q: nat)
    requires s <= |src| && p < q <= |pat|
    ensures StandsAt(src, s, pat[p..q]) <==> s < |src| && src[s] == pat[p] && StandsAt(src, s + 1, pat[p + 1..q])
  {
    var t := pat[p..q];
    assert t[0] == pat[p] && t[1..] == pat[p + 1..q];
    if s + |t| <= |src| {
      var u := src[s..s + |t|];
      assert u[0] == src[s] && u[1..] == src[s + 1..s + |t|];
      assert u == [u[0]] + u[1..] && t == [t[0]] + t[1..];
    }
  }

  /** One call of `match` is enough for it. */
  lemma {:induction false} LiteralNesting(pat: string, p: nat)
    requires p <= |pat| && NoSpecials(pat)
    ensures FirstClose(pat, p) == |pat| ==> Nesting(pat, p) == 0
    decreases |pat| - p
  {
    if p < |pat| && pat[p] != ')' {
      LiteralItem("", pat, 0, p);
      LiteralNesting(pat, p + 1);
    }
  }

  // ----- the code -----

  /** `nospecials`, with the chunks between terminators that `strpbrk` stops at. */
  method HasNoSpecials(p: string) returns (r: bool)
    ensures r == NoSpecials(p)
  {
    var i := 0;
    while i < |p|
      invariant 0 <= i <= |p| && forall k :: 0 <= k < i ==> p[k] !in SPECIALS
    {
      if p[i] in SPECIALS {
        return false;
      }
      i := i + 1;
    }
    r := true;
  }

  /** `memchr` in the `n` characters from `from` on. */
  method FindChar(s: string, from: nat, n: nat, c: char) returns (k: Option<nat>)
    requires from + n <= |s|
    ensures k.Some? ==> from <= k.value < from + n && s[k.value] == c && c !in s[from..k.value]
    ensures k.None? ==> c !in s[from..from + n]
  {
    var i := from;
    while i < from + n
      invariant from <= i <= from + n && c !in s[from..i]
    {
      if s[i] == c {
        return Some(i);
      }
      assert s[from..i + 1] == s[from..i] + [s[i]];
      i := i + 1;
    }
    k := None;
  }

  /** `lmemfind`, from position `init` on: look for the first character, then compare the rest. */
  method MemFind(s: string, init: nat, t: string) returns (r: Option<nat>)
    requires init <= |s|
    ensures r.Some? ==> init <= r.value && StandsAt(s, r.value, t) && forall k :: init <= k < r.value ==> !StandsAt(s, k, t)
    ensures r.None? ==> forall k :: init <= k ==> !StandsAt(s, k, t)
  {
    if t == "" {
      assert s[init..init] == "";
      return Some(init);
    }
    if |t| > |s| - init {
      return None;
    }
    var l2 := |t| - 1;
    var s1: nat, l1: nat := init, |s| - init - l2;
    while l1 > 0
      invariant init <= s1 && s1 + l1 + l2 == |s|
      invariant forall k :: init <= k < s1 ==> !StandsAt(s, k, t)
      decreases l1
    {
      var found := FindChar(s, s1, l1, t[0]);
      NotBefore(s, s1, if found.Some? then found.value else s1 + l1, t);
      if found.None? {
        return None;
      }
      var k := found.value;
      Compared(s, k, t);
      if s[k + 1..k + 1 + l2] == t[1..] {
        return Some(k);
      }
      l1 := l1 - (k + 1 - s1);
      s1 := k + 1;
    }
    r := None;
  }

  lemma StandsFirst(s: string, k: nat, t: string)
    requires StandsAt(s, k, t) && t != ""
    ensures k < |s| && s[k] == t[0]
  {
    assert s[k..k + |t|][0] == s[k];
  }

  /** Where the first character is not, the text is not. */
  lemma NotBefore(s: string, from: nat, to: nat, t: string)
    requires from <= to <= |s| && t != "" && t[0] !in s[from..to]
    ensures forall k :: from <= k < to ==> !StandsAt(s, k, t)
  {
    forall k | from <= k < to ensures !StandsAt(s, k, t) {
      assert s[from..to][k - from] == s[k];
      if StandsAt(s, k, t) { StandsFirst(s, k, t); }
    }
  }

  lemma Compared(s: string, k: nat, t: string)
    requires t != "" && k + |t| <= |s| && s[k] == t[0]
    ensures StandsAt(s, k, t) <==> s[k + 1..k + |t|] == t[1..]
  {
    var u := s[k..k + |t|];
    assert u == [u[0]] + u[1..] && t == [t[0]] + t[1..] && u[1..] == s[k + 1..k + |t|];
  }

  /** `posrelatI`: a position counted from 1, or from the end when negative. */
  function PosRelat(pos: int, len: nat): (r: nat)
    ensures r >= 1
  {
    if pos > 0 then pos else if pos == 0 then 1 else if pos + len < 0 then 1 else len + pos + 1
  }

  /** Position -1 is the last character, minus the length the first, and so is everything before it. */
  lemma PositionIs(pos: int, len: nat)
    ensures len > 0 ==> PosRelat(-1, len) == len && PosRelat(0 - len, len) == 1
    ensures pos < 0 - len || pos == 0 ==> PosRelat(pos, len) == 1
    ensures pos > 0 ==> PosRelat(pos, len) == pos
    ensures 0 - len <= pos < 0 ==> PosRelat(pos, len) == len + 1 + pos
  {
  }

  /** What `string.find` returns: where the text found begins and ends, with the captures, counted from 0. */
  datatype Finding = Nothing | Text(start: nat, end: nat, caps: seq<Capture>) | Failed(failure: Failure)

  /** `str_find_aux` for `find`: `plain` is its fourth argument. */
  method StrFind(s: string, p: string, pos: int, plain: bool) returns (r: Finding)
    ensures var init := if pos >= 1 then pos - 1 else if pos == 0 || -pos > |s| then 0 else |s| + pos;
            if init > |s| then r == Nothing
            else if plain || NoSpecials(p) then FindsText(s, p, init, r)
            else FindsPattern(s, p, init, r)
  {
    hide Finds;
    var init := PosRelat(pos, |s|) - 1;
    if init > |s| {
      return Nothing;
    }
    var literal := true;
    if !plain {
      literal := HasNoSpecials(p);
    }
    if literal {
      var k := MemFind(s, init, p);
      return if k.None? then Nothing else Text(k.value, k.value + |p|, []);
    }
    var m, start, caps := FindPattern(s, p, init);
    r := Reported(m, start, caps);
  }

  /** The first place from `init` on where the text stands. */
  ghost predicate FindsText(s: string, p: string, init: nat, r: Finding) {
    match r
    case Nothing => forall k :: init <= k ==> !StandsAt(s, k, p)
    case Text(start, end, caps) =>
      && init <= start && StandsAt(s, start, p) && end == start + |p| && caps == []
      && forall k :: init <= k < start ==> !StandsAt(s, k, p)
    case Failed(_) => false
  }

  function Reported(m: Result, start: nat, caps: seq<Capture>): Finding {
    match m
    case Fail => Nothing
    case Found(end) => Text(start, end, caps)
    case Raised(failure) => Failed(failure)
  }

  ghost predicate FindsPattern(s: string, p: string, init: nat, r: Finding)
    requires init <= |s|
  {
    var anchor := At(p, 0) == '^';
    exists m: Result, start: nat, caps: seq<Capture> ::
      Finds(s, if anchor then p[1..] else p, init, anchor, m, start, caps) && r == Reported(m, start, caps)
  }

  // ----- the short cut -----

  /** Whether the matcher, started at `init`, comes to a `)` after what stands before it. */
  ghost predicate MeetsClose(s: string, p: string, init: nat) {
    FirstClose(p, 0) < |p| && exists k :: init <= k <= |s| && StandsAt(s, k, p[..FirstClose(p, 0)])
  }

  /** For a text without special characters the short cut finds what the matcher would find, if and only if the matcher
      does not come to a `)`; if it does, the matcher raises an error. */
  lemma ShortCutExact(s: string, p: string, init: nat, text: Finding, m: Result, start: nat, caps: seq<Capture>)
    requires init <= |s| && NoSpecials(p) && FindsText(s, p, init, text)
    requires Finds(s, p, init, false, m, start, caps)
    ensures Reported(m, start, caps) == text <==> !MeetsClose(s, p, init)
    ensures MeetsClose(s, p, init) ==> m == Raised(InvalidPatternCapture)
  {
    var q := FirstClose(p, 0);
    LiteralStarts(s, p, init, m, start, caps);
    hide Finds;
    forall k | init <= k && StandsAt(s, k, p) ensures k <= |s| && StandsAt(s, k, p[..q]) { PrefixStands(s, k, p, q); }
    assert q == |p| ==> p[..q] == p;
    if text.Text? && q < |p| { assert StandsAt(s, text.start, p[..q]) && MeetsClose(s, p, init); }
  }

  /** `)` in `a)`: the short cut finds it, where the matcher raises an error. */
  lemma ShortCutDiffers()
    ensures NoSpecials(")") && FindsText("a)", ")", 0, Text(1, 2, [])) && MeetsClose("a)", ")", 0)
  {
    assert FirstClose(")", 0) == 0 && StandsAt("a)", 0, ")"[..0]);
    assert "a)"[0..1] == ['a'] && "a)"[1..2] == [')'];
  }

  lemma PrefixStands(s: string, k: nat, t: string, q: nat)
    requires q <= |t| && StandsAt(s, k, t)
    ensures StandsAt(s, k, t[..q])
  {
    assert s[k..k + |t|][..q] == s[k..k + q];
  }

  /** What the search of the matcher comes to. */
  lemma LiteralStarts(s: string, p: string, init: nat, m: Result, start: nat, caps: seq<Capture>)
    requires init <= |s| && NoSpecials(p) && Finds(s, p, init, false, m, start, caps)
    ensures var q := FirstClose(p, 0);
            && (forall k :: init <= k < start ==> !StandsAt(s, k, p[..q]))
            && m == (if !StandsAt(s, start, p[..q]) then Fail
                     else if q < |p| then Raised(InvalidPatternCapture) else Found(start + |p|))
            && (m == Fail ==> start == |s|) && (m.Found? ==> caps == [])
  {
    var q := FirstClose(p, 0);
    assert p[0..q] == p[..q];
    forall k | init <= k <= start ensures All(s, p, k, 0, []) == [] <==> !StandsAt(s, k, p[..q]) { LiteralAll(s, p, k, 0); }
    LiteralAll(s, p, start, 0);
    NotTooDeep(s, p, start);
    hide All, TooDeep, StandsAt, NoSpecials, FirstClose;
  }

  /** Nothing nests, so nothing is too complex. */
  lemma NotTooDeep(s: string, p: string, start: nat)
    requires start <= |s| && NoSpecials(p)
    ensures !TooDeep(MAXCCALLS, s, p, start, 0, [])
  {
    LiteralInside(MAXCCALLS - 1, s, p, start, 0);
  }

  lemma {:induction false} LiteralInside(d: nat, src: string, pat: string, s: nat, p: nat)
    requires s <= |src| && p <= |pat| && NoSpecials(pat)
    ensures Inside(d, src, pat, s, p, []) == [] || Inside(d, src, pat, s, p, [])[0] != Error(TooComplex)
    decreases |pat| - p
  {
    if p < |pat| {
      if pat[p] == ')' {
        assert ItemAt(pat, p) == Close(p + 1);
      } else {
        LiteralItem(src, pat, s, p);
        hide ItemAt, MaxRun;
        if MaxRun(src, pat, s, p, p + 1) > 0 { LiteralInside(d, src, pat, s + 1, p + 1); }
      }
    }
  }
}
