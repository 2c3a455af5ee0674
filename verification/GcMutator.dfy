/** What a program may do between two steps of the collector, and why it keeps the collector's invariant. */
module GcMutator {
  import opened Wrappers
  import opened Gc
  import opened GcInvariant
  import opened GcCycle

  /** One event of a run: a single step of the collector; an allocation; a reference stored in an object that is
      not a thread, followed by a forward or a backward barrier; references erased; a value moved to a thread's
      stack, where there are no barriers; new globals; a switch to another thread; a string found in the string
      table; and the two shortcuts of a full collection. */
  datatype Act =
    | Step | Allocate(kind: Kind) | StoreForward(o: Obj, v: Obj) | StoreBack(o: Obj, v: Obj)
    | Erase(o: Obj, rest: seq<Obj>) | Push(th: Obj, v: Obj) | SetGlobals(rs: seq<Obj>) | Switch(th: Obj)
    | Intern(s: Obj) | GiveUp | Hurry

  ghost predicate OfKind(g: State, o: Obj, thread: bool) {
    o in g.heap && !g.heap[o].kind.Str? && g.heap[o].kind.Thread? == thread
  }

  /** A program only handles what it can reach, and strings that it spells out. */
  ghost predicate Legal(g: State, a: Act) {
    match a
    case Step => true
    case Allocate(_) => true
    case StoreForward(o, v) => Reachable(g, o) && Reachable(g, v) && OfKind(g, o, false)
    case StoreBack(o, v) => Reachable(g, o) && Reachable(g, v) && OfKind(g, o, false) && HasGcList(g.heap[o].kind)
    case Erase(o, rest) => o in g.heap && !g.heap[o].kind.Str? && forall r :: r in rest ==> r in g.heap[o].refs
    case Push(th, v) => Reachable(g, th) && Reachable(g, v) && OfKind(g, th, true)
    case SetGlobals(rs) => forall r :: r in rs ==> Reachable(g, r)
    case Switch(th) => Reachable(g, th) && OfKind(g, th, true)
    case Intern(s) => s in g.heap && g.heap[s].kind.Str?
    case GiveUp => KeepInvariant(g)
    case Hurry => g.phase.Propagate?
  }

  ghost function Next(g: State, a: Act): State
    requires Sweepable(g)
  {
    match a
    case Step => SingleStep(g)
    case Allocate(k) => NewObject(g, k)
    case StoreForward(o, v) => Store(g, o, v, false)
    case StoreBack(o, v) => Store(g, o, v, true)
    case Erase(o, rest) => SetRefs(g, o, rest)
    case Push(th, v) => SetRefs(g, th, RefsOf(g, th) + [v])
    case SetGlobals(rs) => g.(globals := rs)
    case Switch(th) => g.(running := th)
    case Intern(s) => Reintern(g, s)
    case GiveUp => Abandon(g)
    case Hurry => g.(phase := EnterAtomic)
  }

  /** The doomed objects: those that nothing reached when the cycle began, except the strings found since. */
  ghost function Doom(g: State, doomed: set<Obj>, a: Act): set<Obj> {
    match a
    case Step => DoomStep(g, doomed)
    case Intern(s) => doomed - {s}
    case GiveUp => {}
    case _ => doomed
  }

  // ----- what the program has done -----

  /** Nothing but the references of `o`, which now are `rs`, has changed in the heap as the program sees it. */
  ghost predicate OnlyRefs(g: State, g': State, o: Obj, rs: seq<Obj>) {
    && g'.heap.Keys == g.heap.Keys && g'.globals == g.globals && g'.running == g.running && g'.mainthread == g.mainthread
    && forall x :: x in g.heap ==> g'.heap[x].kind == g.heap[x].kind && g'.heap[x].refs == if x == o then rs else g.heap[x].refs
  }

  ghost predicate SameRefs(g: State, g': State) {
    && g'.heap.Keys == g.heap.Keys && g'.mainthread == g.mainthread
    && forall x :: x in g.heap ==> g'.heap[x].kind == g.heap[x].kind && g'.heap[x].refs == g.heap[x].refs
  }

  /** There is one more object, of that kind and without references, on the stack of the running thread. */
  ghost predicate OneMore(g: State, g': State, o: Obj, kind: Kind) {
    && o !in g.heap && g'.heap.Keys == g.heap.Keys + {o} && g'.heap[o].kind == kind && g'.heap[o].refs == []
    && g'.globals == g.globals && g'.running == g.running && g'.mainthread == g.mainthread && g.running in g.heap
    && forall x :: x in g.heap ==>
         && g'.heap[x].kind == g.heap[x].kind
         && g'.heap[x].refs == if x == g.running then g.heap[x].refs + [o] else g.heap[x].refs
  }

  /** Every action of the program, barrier included, has the effect on references that it is there for, and no other. */
  lemma EffectOf(g: State, a: Act, doomed: set<Obj>)
    requires Inv(g, doomed) && Legal(g, a) && !a.Step? && !a.GiveUp? && !a.Hurry?
    ensures Sweepable(g)
    ensures var g' := Next(g, a);
            match a
            case Allocate(kind) => OneMore(g, g', g.born, kind) && Reachable(g', g.born)
            case StoreForward(o, v) => o in g.heap && OnlyRefs(g, g', o, g.heap[o].refs + [v])
            case StoreBack(o, v) => o in g.heap && OnlyRefs(g, g', o, g.heap[o].refs + [v])
            case Erase(o, rest) => OnlyRefs(g, g', o, rest)
            case Push(th, v) => th in g.heap && OnlyRefs(g, g', th, g.heap[th].refs + [v])
            case Intern(s) => g.running in g.heap && OnlyRefs(g, g', g.running, g.heap[g.running].refs + [s])
            case SetGlobals(rs) => SameRefs(g, g') && g'.globals == rs && g'.running == g.running
            case Switch(th) => SameRefs(g, g') && g'.globals == g.globals && g'.running == th
            case _ => true
  {
    hide Closed, Apart, Inv, OnlyRefs, OneMore, SameRefs, Store, NewObject, Reintern, Abandon, Reachable;
    InvBasics(g, doomed);
    match a
    case Allocate(kind) => NewReached(g, kind);
    case StoreForward(o, v) => StoreEffect(g, o, v, false);
    case StoreBack(o, v) => StoreEffect(g, o, v, true);
    case Erase(o, rest) => RefsSet(g, o, rest);
    case Push(th, v) => RefsSet(g, th, RefsOf(g, th) + [v]);
    case Intern(s) => InternEffect(g, s);
    case SetGlobals(rs) => RootsSet(g, g.(globals := rs));
    case Switch(th) => RootsSet(g, g.(running := th));
    case _ =>
  }

  lemma RefsSet(g: State, o: Obj, rs: seq<Obj>)
    requires o in g.heap
    ensures OnlyRefs(g, SetRefs(g, o, rs), o, rs)
  {
  }

  lemma RootsSet(g: State, g': State)
    requires g'.heap == g.heap && g'.mainthread == g.mainthread
    ensures SameRefs(g, g')
  {
  }

  lemma InternEffect(g: State, s: Obj)
    requires g.running in g.heap
    ensures OnlyRefs(g, Reintern(g, s), g.running, g.heap[g.running].refs + [s])
  {
  }

  lemma NewReached(g: State, kind: Kind)
    requires Heap(g)
    ensures OneMore(g, NewObject(g, kind), g.born, kind) && Reachable(NewObject(g, kind), g.born)
  {
    var g' := NewObject(g, kind);
    assert Root(g', g.running) && ReachedIn(g', g.running, 0);
    assert g.born in g'.heap[g.running].refs && ReachedIn(g', g.born, 1);
  }

  lemma StoreEffect(g: State, o: Obj, v: Obj, back: bool)
    requires o in g.heap && g.running in g.heap
    ensures OnlyRefs(g, Store(g, o, v, back), o, g.heap[o].refs + [v])
  {
    hide MarkObject;
  }

  // ----- references changed without a barrier -----

  lemma EditBasics(g: State, o: Obj, rs: seq<Obj>, doomed: set<Obj>)
    requires Heap(g) && Closed(g) && Apart(g, doomed) && o in g.heap && !g.heap[o].kind.Str?
    requires forall r :: r in rs ==> r in g.heap[o].refs || (r in g.heap && !IsDead(g, r) && r !in doomed)
    ensures var g' := SetRefs(g, o, rs); Heap(g') && Closed(g') && Apart(g', doomed)
  {
    var g' := SetRefs(g, o, rs);
    assert Apart(g', doomed);
    hide Apart;
    assert Heap(g');
    hide Heap;
    assert forall x :: IsDead(g', x) == IsDead(g, x);
    assert Closed(g');
  }

  lemma EditMarks(g: State, o: Obj, rs: seq<Obj>, doomed: set<Obj>)
    requires InMark(g, doomed) && o in g.heap
    ensures var g' := SetRefs(g, o, rs);
            && GrayListed(g', []) && Alive(g', doomed) && ThreadsWait(g') && NoBlackToWhite(g', {o})
            && (forall x :: Marked(g', x) == Marked(g, x))
  {
    var g' := SetRefs(g, o, rs);
    assert forall x :: Marked(g', x) == Marked(g, x);
    assert g'.gray + g'.grayagain + [] == g.gray + g.grayagain + [];
    assert GrayListed(g', []);
  }

  lemma EditSwept(g: State, o: Obj, rs: seq<Obj>, doomed: set<Obj>)
    requires Swept(g, doomed) && Heap(g) && o in g.heap
    ensures Swept(SetRefs(g, o, rs), doomed)
  {
    assert forall x :: IsDead(SetRefs(g, o, rs), x) == IsDead(g, x);
  }

  /** New references need no barrier when their holder is not black or they are marked. */
  lemma Edited(g: State, o: Obj, rs: seq<Obj>, doomed: set<Obj>)
    requires Inv(g, doomed) && o in g.heap && !g.heap[o].kind.Str?
    requires forall r :: r in rs ==> r in g.heap[o].refs || (r in g.heap && !IsDead(g, r) && r !in doomed)
    requires KeepInvariant(g) && g.heap[o].mark.Black? ==> forall r :: r in rs ==> r in g.heap[o].refs || Marked(g, r)
    ensures Inv(SetRefs(g, o, rs), doomed)
  {
    hide Heap, Closed, Apart, GrayListed, NoBlackToWhite, Alive, ThreadsWait;
    var g' := SetRefs(g, o, rs);
    InvBasics(g, doomed);
    EditBasics(g, o, rs, doomed);
    if KeepInvariant(g) {
      EditMarks(g, o, rs, doomed);
      BlackEdited(g, o, rs, doomed);
    } else if g.phase.SwpAllgc? {
      hide Heap, Closed, Apart, Swept;
      EditSwept(g, o, rs, doomed);
    } else {
      hide Heap, Closed, Apart;
    }
  }

  lemma BlackEdited(g: State, o: Obj, rs: seq<Obj>, doomed: set<Obj>)
    requires NoBlackToWhite(g, {}) && o in g.heap
    requires g.heap[o].mark.Black? ==> forall r :: r in rs ==> r in g.heap[o].refs || Marked(g, r)
    ensures NoBlackToWhite(SetRefs(g, o, rs), {})
  {
    assert forall x :: Marked(SetRefs(g, o, rs), x) == Marked(g, x);
  }

  // ----- barriers -----

  /** A black object has just got a reference to an object that may be white. */
  ghost predicate Linked(g: State, o: Obj, v: Obj, doomed: set<Obj>) {
    && Marking(g, [], {o}, doomed) && ThreadsWait(g) && Marked(g, g.mainthread) && g.sweep.None?
    && v in g.heap && v !in doomed && o in g.heap && g.heap[o].mark.Black?
    && forall r :: r in g.heap[o].refs ==> r == v || Marked(g, r)
  }

  lemma LinkMade(g: State, o: Obj, v: Obj, doomed: set<Obj>)
    requires InMark(g, doomed) && o in g.heap && !g.heap[o].kind.Str? && g.heap[o].mark.Black?
    requires v in g.heap && v !in doomed
    ensures Linked(SetRefs(g, o, RefsOf(g, o) + [v]), o, v, doomed)
  {
    BlackMarked(g, o);
    assert !IsDead(g, v);
    EditBasics(g, o, RefsOf(g, o) + [v], doomed);
    EditMarks(g, o, RefsOf(g, o) + [v], doomed);
    hide Heap, Closed, Apart, GrayListed, NoBlackToWhite, Alive, ThreadsWait, Marked;
  }

  /** The forward barrier while marking: the new reference is marked. */
  lemma Forwarded(g: State, o: Obj, v: Obj, doomed: set<Obj>)
    requires Linked(g, o, v, doomed)
    ensures InMark(MarkObject(g, v), doomed)
  {
    hide Heap, Closed, Apart, GrayListed, NoBlackToWhite, Alive, ThreadsWait;
    MarkObjectKeeps(g, v, [], {o}, doomed);
    var g' := MarkObject(g, v);
    assert Marks(g, g');
    NoBlackThreads(g, g');
    hide MarkObject;
    assert {o} == {} + {o};
    Visited(g', o, {});
  }

  lemma BlackMarked(g: State, o: Obj)
    requires NoBlackToWhite(g, {}) && o in g.heap && g.heap[o].mark.Black?
    ensures forall r :: r in g.heap[o].refs ==> Marked(g, r)
  {
  }

  /** The backward barrier while marking: the holder is gray again. */
  lemma GrayAgain(g: State, o: Obj, v: Obj, doomed: set<Obj>)
    requires Linked(g, o, v, doomed) && !g.heap[o].kind.Thread? && HasGcList(g.heap[o].kind)
    ensures InMark(SetMark(g, o, Gray).(grayagain := [o] + g.grayagain), doomed)
  {
    var g' := SetMark(g, o, Gray).(grayagain := [o] + g.grayagain);
    GrayBack(g, o);
    Recoloured(g, g', o, doomed);
    NoLongerBlack(g, g', o, doomed);
    hide Heap, Closed, Apart, GrayListed, NoBlackToWhite, Alive;
  }

  lemma NoLongerBlack(g: State, g': State, o: Obj, doomed: set<Obj>)
    requires NoBlackToWhite(g, {o}) && Alive(g, doomed) && o in g.heap && g.heap[o].mark.Black? && g'.white == g.white
    requires g'.heap == g.heap[o := g.heap[o].(mark := Gray)]
    ensures NoBlackToWhite(g', {}) && Alive(g', doomed)
    ensures forall x :: Marked(g', x) == Marked(g, x)
  {
    assert forall x :: Marked(g', x) == Marked(g, x);
  }

  lemma GrayBack(g: State, o: Obj)
    requires GrayListed(g, []) && o in g.heap && g.heap[o].mark.Black? && HasGcList(g.heap[o].kind)
    ensures GrayListed(SetMark(g, o, Gray).(grayagain := [o] + g.grayagain), [])
  {
    var g' := SetMark(g, o, Gray).(grayagain := [o] + g.grayagain);
    assert g.gray + g.grayagain + [] == g.gray + g.grayagain;
    assert o !in g.gray + g.grayagain;
    assert g'.gray + g'.grayagain + [] == g.gray + [o] + g.grayagain;
    Inserted(g.gray, o, g.grayagain);
  }

  lemma Inserted(a: seq<Obj>, o: Obj, b: seq<Obj>)
    requires NoDup(a + b) && o !in a + b
    ensures NoDup(a + [o] + b)
  {
    var s, m := a + b, a + [o] + b;
    forall i, j | 0 <= i < j < |m| ensures m[i] != m[j] {
      assert i != |a| ==> m[i] == s[if i < |a| then i else i - 1] && m[i] in s;
      assert j != |a| ==> m[j] == s[if j < |a| then j else j - 1] && m[j] in s;
    }
  }

  /** Repainting an object that is not dead and stays so. */
  lemma Recoloured(g: State, g': State, o: Obj, doomed: set<Obj>)
    requires Heap(g) && Closed(g) && Apart(g, doomed) && o in g.heap && !IsDead(g, o)
    requires g' == g.(heap := g'.heap, grayagain := g'.grayagain)
    requires g'.heap.Keys == g.heap.Keys && forall x :: x in g.heap && x != o ==> g'.heap[x] == g.heap[x]
    requires g'.heap[o] == g.heap[o].(mark := g'.heap[o].mark) && g'.heap[o].mark != White(!g.white)
    ensures Heap(g') && Closed(g') && Apart(g', doomed)
    ensures forall x :: IsDead(g', x) == IsDead(g, x)
  {
    assert forall x :: IsDead(g', x) == IsDead(g, x);
    assert Heap(g');
    assert Closed(g');
    assert Apart(g', doomed);
  }

  /** Either barrier during the sweep: only an object still to be swept can be black. */
  lemma SweepBarrier(g: State, o: Obj, m: Mark, again: seq<Obj>, doomed: set<Obj>)
    requires InSweep(g, doomed) && o in g.heap && g.heap[o].mark.Black? && (m.Gray? || m == White(g.white))
    ensures InSweep(SetMark(g, o, m).(grayagain := again), doomed)
  {
    var g' := SetMark(g, o, m).(grayagain := again);
    Recoloured(g, g', o, doomed);
    assert Swept(g', doomed);
    hide Heap, Closed, Apart, Swept;
  }

  lemma StoreKeeps(g: State, o: Obj, v: Obj, back: bool, doomed: set<Obj>)
    requires Inv(g, doomed) && Reachable(g, o) && Reachable(g, v) && OfKind(g, o, false)
    requires back ==> HasGcList(g.heap[o].kind)
    ensures Inv(Store(g, o, v, back), doomed)
  {
    hide Heap, Closed, Apart, GrayListed, NoBlackToWhite, Alive, ThreadsWait, Swept, Reachable;
    InvBasics(g, doomed);
    ReachableSafe(g, doomed, v);
    var rs := RefsOf(g, o) + [v];
    var g1 := SetRefs(g, o, rs);
    if !(g.heap[o].mark.Black? && IsWhite(g, v)) {
      Edited(g, o, rs, doomed);
    } else if KeepInvariant(g) {
      LinkMade(g, o, v, doomed);
      if back {
        GrayAgain(g1, o, v, doomed);
      } else {
        Forwarded(g1, o, v, doomed);
      }
    } else {
      Edited(g, o, rs, doomed);
      assert g1.phase.SwpAllgc?;
      if back {
        SweepBarrier(g1, o, Gray, [o] + g.grayagain, doomed);
      } else {
        SweepBarrier(g1, o, White(g.white), g.grayagain, doomed);
      }
    }
  }

  /** The forward barrier asserts that it runs while marking or while sweeping. */
  lemma BarrierOnlyWhileCollecting(g: State, o: Obj, doomed: set<Obj>)
    requires Inv(g, doomed) && o in g.heap && g.heap[o].mark.Black?
    ensures KeepInvariant(g) || g.phase.SwpAllgc?
  {
  }

  // ----- allocation -----

  function Unlinked(g: State, kind: Kind): State {
    g.(heap := g.heap[g.born := Cell(kind, [], White(g.white))], allgc := [g.born] + g.allgc, born := g.born + 1)
  }

  lemma BornHeap(g: State, kind: Kind)
    requires Heap(g)
    ensures Heap(Unlinked(g, kind)) && g.born !in g.heap && g.born !in g.allgc
  {
  }

  lemma BornRefs(g: State, kind: Kind, doomed: set<Obj>)
    requires Closed(g) && Apart(g, doomed) && g.born !in g.heap
    ensures var g' := Unlinked(g, kind); Closed(g') && Apart(g', doomed) && g.born !in doomed
  {
    var g' := Unlinked(g, kind);
    assert forall x :: x in g.heap ==> g'.heap[x] == g.heap[x];
    assert forall x :: IsDead(g', x) == IsDead(g, x);
  }

  lemma BornMarks(g: State, kind: Kind, doomed: set<Obj>)
    requires InMark(g, doomed) && g.born !in g.heap && g.born !in doomed
    ensures var g' := Unlinked(g, kind);
            GrayListed(g', []) && Alive(g', doomed) && ThreadsWait(g') && NoBlackToWhite(g', {}) && Marked(g', g'.mainthread)
  {
    var g' := Unlinked(g, kind);
    assert forall x :: x in g.heap ==> g'.heap[x] == g.heap[x];
    assert forall x :: Marked(g', x) == Marked(g, x);
    assert g'.gray + g'.grayagain + [] == g.gray + g.grayagain + [];
    assert GrayListed(g', []);
    assert NoBlackToWhite(g', {});
    assert Alive(g', doomed);
  }

  lemma BornSwept(g: State, kind: Kind, doomed: set<Obj>)
    requires Swept(g, doomed) && g.born !in g.heap && g.born !in doomed && Left(g) <= |g.allgc|
    ensures Swept(Unlinked(g, kind), doomed)
  {
    var g' := Unlinked(g, kind);
    assert forall x :: IsDead(g', x) == IsDead(g, x);
    assert forall i :: 0 < i < |g'.allgc| ==> g'.allgc[i] == g.allgc[i - 1];
  }

  lemma UnlinkedKeeps(g: State, kind: Kind, doomed: set<Obj>)
    requires Inv(g, doomed)
    ensures Inv(Unlinked(g, kind), doomed) && OfKind(g, g.running, true) && g.born !in g.heap && g.born !in doomed
  {
    InvBasics(g, doomed);
    BornHeap(g, kind);
    BornRefs(g, kind, doomed);
    BornRest(g, kind, doomed);
    if KeepInvariant(g) {
      BornMarks(g, kind, doomed);
    } else if g.phase.SwpAllgc? {
      assert Left(g) <= |g.allgc|;
      BornSwept(g, kind, doomed);
    }
    hide Heap, Closed, Apart, GrayListed, NoBlackToWhite, Alive, ThreadsWait, Swept, AtRest, Unlinked;
  }

  lemma BornRest(g: State, kind: Kind, doomed: set<Obj>)
    requires Heap(Unlinked(g, kind)) && Closed(Unlinked(g, kind)) && Apart(Unlinked(g, kind), doomed)
    requires g.born !in doomed
    ensures Unlinked(g, kind).phase == g.phase && (AtRest(g, doomed) ==> AtRest(Unlinked(g, kind), doomed))
  {
    hide Heap, Closed, Apart;
  }

  lemma AllocateKeeps(g: State, kind: Kind, doomed: set<Obj>)
    requires Inv(g, doomed)
    ensures Inv(NewObject(g, kind), doomed)
  {
    UnlinkedKeeps(g, kind, doomed);
    hide Inv;
    PushKeeps(Unlinked(g, kind), g.running, g.born, doomed);
  }

  /** A thread is never black while marking, so a value can move to its stack without a barrier. */
  lemma PushKeeps(g: State, th: Obj, v: Obj, doomed: set<Obj>)
    requires Inv(g, doomed) && OfKind(g, th, true) && v in g.heap && !IsDead(g, v) && v !in doomed
    ensures Inv(SetRefs(g, th, RefsOf(g, th) + [v]), doomed)
  {
    assert KeepInvariant(g) ==> !g.heap[th].mark.Black?;
    hide Heap, Closed, Apart, GrayListed, NoBlackToWhite, Alive, ThreadsWait, Swept;
    Edited(g, th, RefsOf(g, th) + [v], doomed);
  }

  // ----- strings -----

  lemma Revived(g: State, s: Obj, doomed: set<Obj>)
    requires InSweep(g, doomed) && s in g.heap && g.heap[s].kind.Str? && IsDead(g, s)
    ensures InSweep(SetMark(g, s, White(g.white)), doomed - {s})
  {
    var g' := SetMark(g, s, White(g.white));
    assert Heap(g');
    assert Apart(g', doomed - {s});
    hide Apart;
    assert g'.heap[s].refs == [];
    hide Heap;
    assert forall x :: IsDead(g', x) == (IsDead(g, x) && x != s);
    assert Closed(g');
    hide Closed;
    assert Swept(g', doomed - {s});
    hide Swept;
  }

  lemma Spared(g: State, s: Obj, doomed: set<Obj>)
    requires Inv(g, doomed) && s in g.heap && g.heap[s].kind.Str? && !IsDead(g, s)
    ensures Inv(g, doomed - {s})
  {
    InvBasics(g, doomed);
    assert Apart(g, doomed - {s});
    hide Heap, Closed, Apart, GrayListed, NoBlackToWhite, ThreadsWait;
  }

  lemma InternKeeps(g: State, s: Obj, doomed: set<Obj>)
    requires Inv(g, doomed) && s in g.heap && g.heap[s].kind.Str?
    ensures Inv(Reintern(g, s), doomed - {s})
  {
    InvBasics(g, doomed);
    assert g.running in g.heap && g.heap[g.running].kind.Thread?;
    var g1 := if IsDead(g, s) then SetMark(g, s, White(g.white)) else g;
    if IsDead(g, s) {
      assert g.phase.SwpAllgc?;
      Revived(g, s, doomed);
    } else {
      Spared(g, s, doomed);
    }
    assert Inv(g1, doomed - {s});
    hide Inv;
    PushKeeps(g1, g1.running, s, doomed - {s});
  }

  // ----- roots -----

  lemma RootsKeep(g: State, g': State, doomed: set<Obj>)
    requires Inv(g, doomed) && g' == g.(globals := g'.globals, running := g'.running)
    requires OfKind(g, g'.running, true) && !IsDead(g, g'.running) && g'.running !in doomed
    requires forall r :: r in g'.globals ==> r in g.heap && !IsDead(g, r) && r !in doomed
    ensures Inv(g', doomed)
  {
    InvBasics(g, doomed);
    RootsBasics(g, g', doomed);
    hide Heap, Closed, Apart;
    if KeepInvariant(g) {
      RootsMarks(g, g', doomed);
      hide GrayListed, NoBlackToWhite, Alive;
    }
  }

  lemma RootsBasics(g: State, g': State, doomed: set<Obj>)
    requires Heap(g) && Closed(g) && Apart(g, doomed) && g' == g.(globals := g'.globals, running := g'.running)
    requires OfKind(g, g'.running, true) && !IsDead(g, g'.running) && g'.running !in doomed
    requires forall r :: r in g'.globals ==> r in g.heap && !IsDead(g, r) && r !in doomed
    ensures Heap(g') && Closed(g') && Apart(g', doomed)
  {
    assert forall x :: IsDead(g', x) == IsDead(g, x);
  }

  lemma RootsMarks(g: State, g': State, doomed: set<Obj>)
    requires GrayListed(g, []) && NoBlackToWhite(g, {}) && Alive(g, doomed)
    requires g' == g.(globals := g'.globals, running := g'.running)
    ensures GrayListed(g', []) && NoBlackToWhite(g', {}) && Alive(g', doomed)
  {
    assert g'.gray + g'.grayagain + [] == g.gray + g.grayagain + [];
    assert forall x :: Marked(g', x) == Marked(g, x);
  }

  // ----- every act -----

  lemma InvSweepable(g: State, doomed: set<Obj>)
    requires Inv(g, doomed)
    ensures Sweepable(g)
  {
  }

  lemma {:induction false} NextKeeps(g: State, doomed: set<Obj>, a: Act)
    requires Inv(g, doomed) && Legal(g, a)
    ensures Sweepable(g) && Inv(Next(g, a), Doom(g, doomed, a))
  {
    hide Heap, Closed, Apart, GrayListed, NoBlackToWhite, Alive, ThreadsWait, Swept, Reachable, AtRest, InSweep;
    InvSweepable(g, doomed);
    InvBasics(g, doomed);
    assert OfKind(g, g.running, true) && !IsDead(g, g.running) && g.running !in doomed;
    assert forall r :: r in g.globals ==> r in g.heap && !IsDead(g, r) && r !in doomed;
    forall o | Reachable(g, o) ensures o in g.heap && !IsDead(g, o) && o !in doomed {
      ReachableSafe(g, doomed, o);
    }
    match a
    case Step => SingleStepKeeps(g, doomed);
    case Allocate(k) => AllocateKeeps(g, k, doomed);
    case StoreForward(o, v) => StoreKeeps(g, o, v, false, doomed);
    case StoreBack(o, v) => StoreKeeps(g, o, v, true, doomed);
    case Erase(o, rest) => Edited(g, o, rest, doomed);
    case Push(th, v) => PushKeeps(g, th, v, doomed);
    case SetGlobals(rs) => RootsKeep(g, g.(globals := rs), doomed);
    case Switch(th) => RootsKeep(g, g.(running := th), doomed);
    case Intern(s) => InternKeeps(g, s, doomed);
    case GiveUp => Abandoned(g, doomed);
    case Hurry => Hurried(g, doomed);
  }

  lemma Hurried(g: State, doomed: set<Obj>)
    requires Inv(g, doomed) && g.phase.Propagate?
    ensures Inv(g.(phase := EnterAtomic), doomed)
  {
    PhaseAside(g, EnterAtomic, [], {}, doomed);
    ThreadsAside(g, EnterAtomic);
  }
}
