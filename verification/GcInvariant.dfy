/** The invariants of the collector and the steps that keep them. `doomed` is the set of objects that
    nothing reached when the cycle began and that no string lookup has handed out since. */
module GcInvariant {
  import opened Wrappers
  import opened Gc

  ghost predicate NoDup(l: seq<Obj>) {
    forall i, j :: 0 <= i < j < |l| ==> l[i] != l[j]
  }

  /** Marked: in the heap and not white. */
  ghost predicate Marked(g: State, o: Obj) {
    o in g.heap && !g.heap[o].mark.White?
  }

  /** The list of all objects is the heap, and references stay among objects ever created. */
  ghost predicate Heap(g: State) {
    && NoDup(g.allgc)
    && (forall o :: o in g.allgc <==> o in g.heap)
    && (forall o :: o in g.heap ==> o < g.born)
    && (forall o :: o in g.heap && g.heap[o].kind.Str? ==> g.heap[o].refs == [])
    && g.mainthread in g.heap && g.heap[g.mainthread].kind.Thread?
    && g.running in g.heap && g.heap[g.running].kind.Thread?
    && (g.sweep.Some? ==> g.sweep.value <= |g.allgc|)
  }

  /** Every object that is not dead refers only to objects that are there and not dead; so do the roots. */
  ghost predicate Closed(g: State) {
    && (forall o, r :: o in g.heap && !IsDead(g, o) && r in g.heap[o].refs ==> r in g.heap && !IsDead(g, r))
    && !IsDead(g, g.mainthread) && !IsDead(g, g.running)
    && (forall r :: r in g.globals ==> r in g.heap && !IsDead(g, r))
  }

  /** No reference leads from an object that is not doomed to one that is. */
  ghost predicate Apart(g: State, doomed: set<Obj>) {
    && (forall o, r :: o in g.heap && o !in doomed && r in g.heap[o].refs ==> r !in doomed)
    && g.mainthread !in doomed && g.running !in doomed
    && (forall r :: r in g.globals ==> r !in doomed)
    && (forall o :: o in doomed ==> o < g.born)
  }

  /** "Any gray object must be in a gray list": the lists hold exactly the gray objects, each once. */
  ghost predicate GrayListed(g: State, extra: seq<Obj>) {
    var all := g.gray + g.grayagain + extra;
    && NoDup(all)
    && (forall o :: o in all ==> o in g.heap && g.heap[o].mark.Gray? && HasGcList(g.heap[o].kind))
    && (forall o :: o in g.heap && g.heap[o].mark.Gray? ==> o in all)
  }

  /** "A black object can never point to a white one", except those in `busy`. */
  ghost predicate NoBlackToWhite(g: State, busy: set<Obj>) {
    forall o, r :: o in g.heap && g.heap[o].mark.Black? && o !in busy && r in g.heap[o].refs ==> Marked(g, r)
  }

  /** While marking: no object is dead, and the doomed are white. */
  ghost predicate Alive(g: State, doomed: set<Obj>) {
    forall o :: o in g.heap ==> g.heap[o].mark != White(!g.white) && (o in doomed ==> g.heap[o].mark.White?)
  }

  ghost predicate Marking(g: State, extra: seq<Obj>, busy: set<Obj>, doomed: set<Obj>) {
    Heap(g) && Closed(g) && Apart(g, doomed) && GrayListed(g, extra) && NoBlackToWhite(g, busy) && Alive(g, doomed)
  }

  // ----- marking one object -----

  lemma MarksKeep(g: State, g': State, doomed: set<Obj>)
    requires Marks(g, g') && Heap(g) && Closed(g) && Apart(g, doomed) && Alive(g, doomed)
    requires forall o :: o in doomed ==> !Marked(g', o)
    ensures Heap(g') && Closed(g') && Apart(g', doomed) && Alive(g', doomed)
    ensures forall o :: Marked(g, o) ==> Marked(g', o)
  {
    assert forall o :: !IsDead(g, o) && !IsDead(g', o);
    assert Heap(g');
    assert Apart(g', doomed);
    assert Alive(g', doomed);
    hide Heap, Apart, Alive;
  }

  lemma MarkLeaf(g: State, o: Obj, extra: seq<Obj>, busy: set<Obj>, doomed: set<Obj>)
    requires Marking(g, extra, busy, doomed) && IsWhite(g, o) && o !in doomed && !HasGcList(g.heap[o].kind)
    ensures var g' := SetMark(g, o, Black);
            Marking(g', extra, busy + {o}, doomed) && Marks(g, g') && (g.heap[o].refs == [] ==> NoBlackToWhite(g', busy))
  {
    var g' := SetMark(g, o, Black);
    assert Marks(g, g');
    MarksKeep(g, g', doomed);
  }

  lemma GrayPushed(g: State, o: Obj, extra: seq<Obj>)
    requires GrayListed(g, extra) && IsWhite(g, o) && HasGcList(g.heap[o].kind)
    ensures GrayListed(SetMark(g, o, Gray).(gray := [o] + g.gray), extra)
  {
    var all := g.gray + g.grayagain + extra;
    assert o !in all;
    assert ([o] + g.gray) + g.grayagain + extra == [o] + all;
  }

  lemma MarkLater(g: State, o: Obj, extra: seq<Obj>, busy: set<Obj>, doomed: set<Obj>)
    requires Marking(g, extra, busy, doomed) && IsWhite(g, o) && o !in doomed && HasGcList(g.heap[o].kind)
    ensures var g' := SetMark(g, o, Gray).(gray := [o] + g.gray);
            Marking(g', extra, busy, doomed) && Marks(g, g')
  {
    var g' := SetMark(g, o, Gray).(gray := [o] + g.gray);
    assert Marks(g, g');
    GrayPushed(g, o, extra);
    MarksKeep(g, g', doomed);
    hide Heap, Closed, Apart, GrayListed;
  }

  lemma {:induction false} MarkObjectKeeps(g: State, o: Obj, extra: seq<Obj>, busy: set<Obj>, doomed: set<Obj>)
    requires Marking(g, extra, busy, doomed) && o in g.heap && o !in doomed
    ensures var g' := MarkObject(g, o);
            Marking(g', extra, busy, doomed) && Marked(g', o) && forall x :: Marked(g, x) ==> Marked(g', x)
    decreases Whites(g), 1, 0
  {
    if IsWhite(g, o) {
      match g.heap[o].kind
      case Str => MarkLeaf(g, o, extra, busy, doomed);
      case Upvalue => VisitNowKeeps(g, o, extra, busy, doomed);
      case Userdata0 => VisitNowKeeps(g, o, extra, busy, doomed);
      case _ => MarkLater(g, o, extra, busy, doomed);
    }
  }

  lemma {:induction false} VisitNowKeeps(g: State, o: Obj, extra: seq<Obj>, busy: set<Obj>, doomed: set<Obj>)
    requires Marking(g, extra, busy, doomed) && IsWhite(g, o) && o !in doomed && !HasGcList(g.heap[o].kind)
    ensures var g' := VisitNow(g, o);
            Marking(g', extra, busy, doomed) && Marked(g', o) && forall x :: Marked(g, x) ==> Marked(g', x)
    decreases Whites(g), 0, 0
  {
    var g1 := SetMark(g, o, Black);
    MarkLeaf(g, o, extra, busy, doomed);
    assert o in Whites(g) && o !in Whites(g1);
    assert forall r :: r in g.heap[o].refs ==> r in g1.heap && r !in doomed;
    MarkAllKeeps(g1, g.heap[o].refs, extra, busy + {o}, doomed);
    hide Marking, MarkAll, Marked;
    VisitEnds(MarkAll(g1, g.heap[o].refs), o, extra, busy, doomed);
  }

  /** An object all of whose references are marked is no longer busy. */
  lemma Visited(g: State, o: Obj, busy: set<Obj>)
    requires NoBlackToWhite(g, busy + {o}) && o in g.heap && forall r :: r in g.heap[o].refs ==> Marked(g, r)
    ensures NoBlackToWhite(g, busy)
  {
  }

  lemma VisitEnds(g: State, o: Obj, extra: seq<Obj>, busy: set<Obj>, doomed: set<Obj>)
    requires Marking(g, extra, busy + {o}, doomed) && o in g.heap && forall r :: r in g.heap[o].refs ==> Marked(g, r)
    ensures Marking(g, extra, busy, doomed)
  {
    hide Heap, Closed, Apart, GrayListed, Alive;
    Visited(g, o, busy);
  }

  lemma {:induction false} MarkAllKeeps(g: State, rs: seq<Obj>, extra: seq<Obj>, busy: set<Obj>, doomed: set<Obj>)
    requires Marking(g, extra, busy, doomed)
    requires forall r :: r in rs ==> r in g.heap && r !in doomed
    ensures var g' := MarkAll(g, rs);
            && Marking(g', extra, busy, doomed) && (forall x :: Marked(g, x) ==> Marked(g', x))
            && (forall r :: r in rs ==> Marked(g', r))
    decreases Whites(g), 2, |rs|
  {
    hide Marking, Marked, MarkObject;
    if rs != [] {
      assert rs[0] in rs;
      MarkObjectKeeps(g, rs[0], extra, busy, doomed);
      var g1 := MarkObject(g, rs[0]);
      assert forall r :: r in rs[1..] ==> r in rs;
      MarkAllKeeps(g1, rs[1..], extra, busy, doomed);
      assert rs == [rs[0]] + rs[1..];
    }
  }

  // ----- propagation -----

  lemma MovedNoDup(o: Obj, a: seq<Obj>, b: seq<Obj>)
    requires NoDup([o] + a + b)
    ensures NoDup(a + [o] + b)
    ensures forall x :: x in a + [o] + b <==> x in [o] + a + b
  {
    var s := [o] + a + b;
    var m := a + [o] + b;
    forall i, j | 0 <= i < j < |m| ensures m[i] != m[j] {
      var i' := if i < |a| then i + 1 else if i == |a| then 0 else i;
      var j' := if j < |a| then j + 1 else if j == |a| then 0 else j;
      assert m[i] == s[i'] && m[j] == s[j'] && i' != j';
    }
  }

  /** The first gray object leaves its list for good. */
  lemma GrayPopped(g: State, extra: seq<Obj>)
    requires GrayListed(g, extra) && g.gray != []
    ensures var o := g.gray[0];
            && o in g.heap && g.heap[o].mark.Gray? && HasGcList(g.heap[o].kind)
            && GrayListed(SetMark(g, o, Black).(gray := g.gray[1..]), extra)
  {
    var o := g.gray[0];
    var all := g.gray + g.grayagain + extra;
    var rest := g.gray[1..] + g.grayagain + extra;
    assert all == [o] + rest && o == all[0] && o in all;
    assert forall k :: 0 <= k < |rest| ==> rest[k] == all[k + 1];
    assert o !in rest && NoDup(rest);
    assert forall x :: x in all <==> x == o || x in rest;
  }

  /** The first gray object moves to the other list. */
  lemma GrayMoved(g: State, extra: seq<Obj>)
    requires GrayListed(g, extra) && g.gray != []
    ensures GrayListed(g.(gray := g.gray[1..], grayagain := [g.gray[0]] + g.grayagain), extra)
  {
    var o := g.gray[0];
    assert [o] + g.gray[1..] + (g.grayagain + extra) == g.gray + g.grayagain + extra;
    MovedNoDup(o, g.gray[1..], g.grayagain + extra);
    assert g.gray[1..] + ([o] + g.grayagain) + extra == g.gray[1..] + [o] + (g.grayagain + extra);
  }

  lemma SetMarkSame(g: State, o: Obj)
    requires o in g.heap
    ensures SetMark(g, o, g.heap[o].mark) == g
    ensures SetMark(SetMark(g, o, Black), o, g.heap[o].mark).heap == g.heap
  {
  }

  /** Nothing but the gray lists is about the gray lists, and blackening a gray object changes little. */
  lemma ListsAside(g: State, g1: State, doomed: set<Obj>)
    requires Heap(g) && Closed(g) && Apart(g, doomed) && Alive(g, doomed)
    requires g1 == g.(heap := g1.heap, gray := g1.gray, grayagain := g1.grayagain) && g1.heap.Keys == g.heap.Keys
    requires forall x :: x in g.heap ==>
               && g1.heap[x].kind == g.heap[x].kind && g1.heap[x].refs == g.heap[x].refs
               && (g1.heap[x].mark == g.heap[x].mark || (g.heap[x].mark.Gray? && g1.heap[x].mark.Black?))
    ensures Heap(g1) && Closed(g1) && Apart(g1, doomed) && Alive(g1, doomed)
    ensures forall x :: Marked(g, x) <==> Marked(g1, x)
  {
    assert forall x :: IsDead(g1, x) == IsDead(g, x);
  }

  /** Blackening a gray object makes it the one whose references are still to be marked. */
  lemma Blackened(g: State, extra: seq<Obj>, doomed: set<Obj>)
    requires Marking(g, extra, {}, doomed) && g.gray != []
    ensures var o := g.gray[0]; var g1 := SetMark(g, o, Black).(gray := g.gray[1..]);
            Marking(g1, extra, {o}, doomed) && Marked(g, o) && (forall x :: Marked(g, x) ==> Marked(g1, x))
  {
    GrayPopped(g, extra);
    var o := g.gray[0];
    var g1 := SetMark(g, o, Black).(gray := g.gray[1..]);
    ListsAside(g, g1, doomed);
    hide GrayListed, Heap, Closed, Apart, Alive;
  }

  /** A thread visited while the program still runs goes back to a gray list. */
  lemma PutBack(g: State, extra: seq<Obj>, doomed: set<Obj>)
    requires Marking(g, extra, {}, doomed) && g.gray != []
    ensures var o := g.gray[0];
            var g1 := g.(gray := g.gray[1..], grayagain := [o] + g.grayagain);
            Marking(g1, extra, {}, doomed) && forall x :: Marked(g, x) ==> Marked(g1, x)
  {
    GrayMoved(g, extra);
    ListsAside(g, g.(gray := g.gray[1..], grayagain := [g.gray[0]] + g.grayagain), doomed);
    hide GrayListed, Heap, Closed, Apart, Alive;
  }

  lemma PropagateMarkKeeps(g: State, extra: seq<Obj>, doomed: set<Obj>)
    requires Marking(g, extra, {}, doomed) && g.gray != []
    ensures var g' := PropagateMark(g);
            && Marking(g', extra, {}, doomed) && (forall x :: Marked(g, x) ==> Marked(g', x))
            && (!g.phase.Propagate? ==> g'.grayagain == g.grayagain)
            && g' == g.(heap := g'.heap, gray := g'.gray, grayagain := g'.grayagain)
            && (g.phase.Propagate? && ThreadsWait(g) ==> ThreadsWait(g'))
  {
    FirstGray(g, extra, doomed);
    if g.heap[g.gray[0]].kind.Thread? && g.phase.Propagate? {
      PropagateThread(g, extra, doomed);
    } else {
      PropagateOther(g, extra, doomed);
    }
  }

  lemma PropagateThread(g: State, extra: seq<Obj>, doomed: set<Obj>)
    requires Marking(g, extra, {}, doomed) && g.gray != []
    requires g.gray[0] in g.heap && g.heap[g.gray[0]].kind.Thread? && g.phase.Propagate?
    ensures var g' := PropagateMark(g);
            && Marking(g', extra, {}, doomed) && (forall x :: Marked(g, x) ==> Marked(g', x))
            && g' == g.(heap := g'.heap, gray := g'.gray, grayagain := g'.grayagain)
            && (ThreadsWait(g) ==> ThreadsWait(g'))
  {
    hide Marking, MarkAll, Marked, Whites;
    var o := g.gray[0];
    FirstGray(g, extra, doomed);
    PutBack(g, extra, doomed);
    SetMarkSame(g, o);
    MarkAllKeeps(g.(gray := g.gray[1..], grayagain := [o] + g.grayagain), g.heap[o].refs, extra, {}, doomed);
  }

  lemma PropagateOther(g: State, extra: seq<Obj>, doomed: set<Obj>)
    requires Marking(g, extra, {}, doomed) && g.gray != []
    requires g.gray[0] in g.heap && !(g.heap[g.gray[0]].kind.Thread? && g.phase.Propagate?)
    ensures var g' := PropagateMark(g);
            && Marking(g', extra, {}, doomed) && (forall x :: Marked(g, x) ==> Marked(g', x))
            && g' == g.(heap := g'.heap, gray := g'.gray)
            && (g.phase.Propagate? && ThreadsWait(g) ==> ThreadsWait(g'))
  {
    hide Marking, MarkAll, Marked, ThreadsWait, Whites;
    var o := g.gray[0];
    FirstGray(g, extra, doomed);
    Blackened(g, extra, doomed);
    var g1 := SetMark(g, o, Black).(gray := g.gray[1..]);
    if g.phase.Propagate? && ThreadsWait(g) { WaitStill(g, g1, o); }
    MarkAllKeeps(g1, g.heap[o].refs, extra, {o}, doomed);
    assert {o} == {} + {o};
    VisitEnds(MarkAll(g1, g.heap[o].refs), o, extra, {}, doomed);
  }

  /** Visiting anything but a thread blackens no thread. */
  lemma WaitStill(g: State, g1: State, o: Obj)
    requires ThreadsWait(g) && o in g.heap && !g.heap[o].kind.Thread? && g1 == SetMark(g, o, Black).(gray := g1.gray)
    ensures ThreadsWait(MarkAll(g1, g.heap[o].refs))
  {
  }

  lemma FirstGray(g: State, extra: seq<Obj>, doomed: set<Obj>)
    requires Marking(g, extra, {}, doomed) && g.gray != []
    ensures var o := g.gray[0];
            o in g.heap && g.heap[o].mark.Gray? && forall r :: r in g.heap[o].refs ==> r in g.heap && r !in doomed
  {
    assert g.gray[0] in g.gray + g.grayagain + extra;
  }

  /** Threads have no barriers, so between two steps none of them is black while marking. */
  ghost predicate ThreadsWait(g: State) {
    forall o :: o in g.heap && g.heap[o].kind.Thread? ==> !g.heap[o].mark.Black?
  }

  lemma {:induction false} PropagateAllKeeps(g: State, extra: seq<Obj>, doomed: set<Obj>)
    requires Marking(g, extra, {}, doomed) && !g.phase.Propagate?
    ensures var g' := PropagateAll(g);
            && Marking(g', extra, {}, doomed) && (forall x :: Marked(g, x) ==> Marked(g', x))
            && g'.gray == [] && g' == g.(heap := g'.heap, gray := [])
    decreases Whites(g), |g.gray|
  {
    if g.gray != [] {
      PropagateMarkKeeps(g, extra, doomed);
      hide Marking, PropagateMark;
      PropagateAllKeeps(PropagateMark(g), extra, doomed);
    }
  }
}
