/** The steps that begin, end and leave the marking phase, and the sweep. */
module GcCycle {
  import opened Wrappers
  import opened Gc
  import opened GcInvariant

  // ----- reachability -----

  ghost predicate Root(g: State, o: Obj) {
    o == g.mainthread || o == g.running || o in g.globals
  }

  /** Reached from a root along at most `n` references. */
  ghost predicate ReachedIn(g: State, o: Obj, n: nat)
    decreases n
  {
    Root(g, o) || (n > 0 && exists x :: x in g.heap && o in g.heap[x].refs && ReachedIn(g, x, n - 1))
  }

  ghost predicate Reachable(g: State, o: Obj) {
    exists n: nat :: ReachedIn(g, o, n)
  }

  lemma {:induction false} ReachedSafe(g: State, doomed: set<Obj>, o: Obj, n: nat)
    requires Heap(g) && Closed(g) && Apart(g, doomed) && ReachedIn(g, o, n)
    ensures o in g.heap && !IsDead(g, o) && o !in doomed
    decreases n
  {
    if !Root(g, o) {
      var x :| x in g.heap && o in g.heap[x].refs && ReachedIn(g, x, n - 1);
      ReachedSafe(g, doomed, x, n - 1);
    }
  }

  /** Whatever a program can reach is in the heap, not dead and not doomed. */
  lemma ReachableSafe(g: State, doomed: set<Obj>, o: Obj)
    requires Heap(g) && Closed(g) && Apart(g, doomed) && Reachable(g, o)
    ensures o in g.heap && !IsDead(g, o) && o !in doomed
  {
    var n: nat :| ReachedIn(g, o, n);
    ReachedSafe(g, doomed, o, n);
  }

  lemma ReachableStep(g: State, o: Obj, r: Obj)
    requires Reachable(g, o) && o in g.heap && r in g.heap[o].refs
    ensures Reachable(g, r)
  {
    var n: nat :| ReachedIn(g, o, n);
    assert ReachedIn(g, r, n + 1);
  }

  lemma RootReachable(g: State, o: Obj)
    requires Root(g, o)
    ensures Reachable(g, o)
  {
    assert ReachedIn(g, o, 0);
  }

  ghost function Garbage(g: State): set<Obj> {
    set o | o in g.heap && !Reachable(g, o)
  }

  // ----- the invariant of every phase -----

  /** While marking, between two steps. */
  ghost predicate InMark(g: State, doomed: set<Obj>) {
    Marking(g, [], {}, doomed) && ThreadsWait(g) && Marked(g, g.mainthread) && g.sweep.None?
  }

  ghost function Left(g: State): nat {
    if g.sweep.Some? then g.sweep.value else 0
  }

  ghost predicate InSweep(g: State, doomed: set<Obj>) {
    Heap(g) && Closed(g) && Apart(g, doomed) && Swept(g, doomed)
  }

  /** While sweeping: everything before the sweep pointer has the current white, and the doomed objects that
      are still there are dead. */
  ghost predicate Swept(g: State, doomed: set<Obj>) {
    && (forall i :: 0 <= i < |g.allgc| - Left(g) ==> g.allgc[i] in g.heap && g.heap[g.allgc[i]].mark == White(g.white))
    && (forall o :: o in doomed && o in g.heap ==> IsDead(g, o))
  }

  /** From the end of the sweep to the next cycle. */
  ghost predicate AtRest(g: State, doomed: set<Obj>) {
    && Heap(g) && Closed(g) && Apart(g, doomed) && Left(g) == 0
    && (g.sweep.Some? ==> g.phase.SwpFinobj? || g.phase.SwpToBeFnz?)
    && (forall o :: o in g.heap ==> g.heap[o].mark == White(g.white) && o !in doomed)
  }

  ghost predicate Inv(g: State, doomed: set<Obj>) {
    match g.phase
    case Propagate => InMark(g, doomed)
    case EnterAtomic => InMark(g, doomed)
    case Atomic => false
    case SwpAllgc => InSweep(g, doomed)
    case _ => AtRest(g, doomed)
  }

  lemma InvBasics(g: State, doomed: set<Obj>)
    requires Inv(g, doomed)
    ensures Heap(g) && Closed(g) && Apart(g, doomed) && Sweepable(g)
  {
  }

  // ----- the beginning of a cycle -----

  lemma GarbageApart(g: State)
    requires Heap(g) && Closed(g)
    ensures Apart(g, Garbage(g))
  {
    forall o | Root(g, o) ensures Reachable(g, o) {
      RootReachable(g, o);
    }
    forall o, r | o in g.heap && o !in Garbage(g) && r in g.heap[o].refs ensures r !in Garbage(g) {
      ReachableStep(g, o, r);
    }
  }

  /** Marking the roots, at the start and in the atomic step. */
  lemma RootsMarked(g: State, first: Obj, rest: seq<Obj>, extra: seq<Obj>, doomed: set<Obj>)
    requires Marking(g, extra, {}, doomed) && first in g.heap && first !in doomed
    requires forall r :: r in rest ==> r in g.heap && r !in doomed
    ensures var g' := MarkAll(MarkObject(g, first), rest);
            && Marking(g', extra, {}, doomed) && (forall x :: Marked(g, x) ==> Marked(g', x))
            && Marked(g', first) && (forall r :: r in rest ==> Marked(g', r))
            && g' == g.(heap := g'.heap, gray := g'.gray)
            && (ThreadsWait(g) ==> ThreadsWait(g'))
  {
    MarkObjectKeeps(g, first, extra, {}, doomed);
    var g1 := MarkObject(g, first);
    assert Marks(g, g1);
    hide Marking, MarkObject, ThreadsWait;
    MarkAllKeeps(g1, rest, extra, {}, doomed);
    var g' := MarkAll(g1, rest);
    hide MarkAll;
    assert Marks(g1, g');
    if ThreadsWait(g) {
      NoBlackThreads(g, g1);
      NoBlackThreads(g1, g');
    }
  }

  lemma Restarted(g: State, doomed: set<Obj>)
    requires AtRest(g, doomed) && g.phase.Pause?
    ensures var g' := RestartCollection(g).(phase := Propagate); InMark(g', Garbage(g))
  {
    var d := Garbage(g);
    var g0 := g.(gray := [], grayagain := []);
    ListsCleared(g, doomed);
    RootsKnown(g0, d);
    var g2 := MarkAll(MarkObject(g0, g.mainthread), g.globals);
    hide MarkObject, MarkAll, Garbage, Marks;
    assert g2 == RestartCollection(g);
    hide Heap, Closed, Apart, GrayListed, NoBlackToWhite, Alive, ThreadsWait;
    RootsMarked(g0, g.mainthread, g.globals, [], d);
    hide Marking;
    PhaseAside(g2, Propagate, [], {}, d);
    ThreadsAside(g2, Propagate);
  }

  lemma ListsCleared(g: State, doomed: set<Obj>)
    requires AtRest(g, doomed) && g.phase.Pause?
    ensures var g0 := g.(gray := [], grayagain := []);
            Marking(g0, [], {}, Garbage(g)) && ThreadsWait(g0)
  {
    var g0 := g.(gray := [], grayagain := []);
    GarbageApart(g);
    Aside(g, g0, {}, Garbage(g));
  }

  lemma ThreadsAside(g: State, ph: Phase)
    requires ThreadsWait(g)
    ensures ThreadsWait(g.(phase := ph))
  {
  }

  lemma NoBlackThreads(g: State, g': State)
    requires Marks(g, g') && ThreadsWait(g)
    ensures ThreadsWait(g')
  {
  }

  /** Phases and lists do not matter to the invariants of the heap. */
  lemma Aside(g: State, g1: State, busy: set<Obj>, doomed: set<Obj>)
    requires Heap(g) && Closed(g) && Apart(g, doomed) && g1.heap == g.heap && g1.white == g.white
    requires g1 == g.(phase := g1.phase, gray := g1.gray, grayagain := g1.grayagain, sweep := g1.sweep)
    requires g1.sweep.Some? ==> g1.sweep.value <= |g.allgc|
    ensures Heap(g1) && Closed(g1) && Apart(g1, doomed)
    ensures Alive(g, doomed) ==> Alive(g1, doomed)
    ensures NoBlackToWhite(g, busy) ==> NoBlackToWhite(g1, busy)
    ensures forall x :: Marked(g1, x) == Marked(g, x)
  {
    assert forall x :: IsDead(g1, x) == IsDead(g, x);
    assert forall x :: Marked(g1, x) == Marked(g, x);
  }

  lemma PhaseAside(g: State, ph: Phase, extra: seq<Obj>, busy: set<Obj>, doomed: set<Obj>)
    requires Marking(g, extra, busy, doomed)
    ensures Marking(g.(phase := ph), extra, busy, doomed)
  {
    Aside(g, g.(phase := ph), busy, doomed);
    assert GrayListed(g.(phase := ph), extra);
    hide Heap, Closed, Apart, GrayListed, NoBlackToWhite, Alive;
  }

  // ----- the atomic step -----

  /** The list saved by `atomic` is the `extra` one until it becomes the gray list. */
  lemma AtomicMarked(g: State, doomed: set<Obj>)
    requires InMark(g, doomed) && g.phase.EnterAtomic?
    ensures var g' := AtomicMark(g);
            && Marking(g', [], {}, doomed) && g'.gray == [] && g'.grayagain == []
            && g' == g.(heap := g'.heap, gray := [], grayagain := [], phase := Atomic)
            && Marked(g', g.mainthread) && Marked(g', g.running) && forall r :: r in g.globals ==> Marked(g', r)
  {
    var again := g.grayagain;
    var g0 := g.(grayagain := [], phase := Atomic);
    ListSaved(g, doomed);
    RootsKnown(g, doomed);
    assert Marked(g0, g.mainthread);
    hide Marked, Marking, MarkObject, MarkAll, PropagateAll, Marks, Heap, Closed, Apart, InMark, ThreadsWait;
    RootsMarked(g0, g.running, g.globals, again, doomed);
    var g2 := MarkAll(MarkObject(g0, g.running), g.globals);
    PropagateAllKeeps(g2, again, doomed);
    var g3 := PropagateAll(g2);
    ListUsed(g3, again, doomed);
    PropagateAllKeeps(g3.(gray := again), [], doomed);
  }

  lemma RootsKnown(g: State, doomed: set<Obj>)
    requires Heap(g) && Closed(g) && Apart(g, doomed)
    ensures g.mainthread in g.heap && g.mainthread !in doomed
    ensures g.running in g.heap && g.running !in doomed && forall r :: r in g.globals ==> r in g.heap && r !in doomed
  {
  }

  lemma ListSaved(g: State, doomed: set<Obj>)
    requires Marking(g, [], {}, doomed)
    ensures Marking(g.(grayagain := [], phase := Atomic), g.grayagain, {}, doomed)
  {
    var g1 := g.(grayagain := [], phase := Atomic);
    Aside(g, g1, {}, doomed);
    assert g1.gray + g1.grayagain + g.grayagain == g.gray + g.grayagain + [];
    assert GrayListed(g1, g.grayagain);
    hide Heap, Closed, Apart, GrayListed, NoBlackToWhite, Alive;
  }

  lemma ListUsed(g: State, again: seq<Obj>, doomed: set<Obj>)
    requires Marking(g, again, {}, doomed) && g.gray == [] && g.grayagain == []
    ensures Marking(g.(gray := again), [], {}, doomed)
  {
    var g1 := g.(gray := again);
    Aside(g, g1, {}, doomed);
    assert g1.gray + g1.grayagain + [] == g.gray + g.grayagain + again;
    assert GrayListed(g1, []);
    hide Heap, Closed, Apart, GrayListed, NoBlackToWhite, Alive;
  }

  /** Making the other white the current one turns every unmarked object into a dead one. */
  lemma Flipped(g: State, doomed: set<Obj>)
    requires Marking(g, [], {}, doomed) && g.gray == [] && g.grayagain == []
    requires Marked(g, g.mainthread) && Marked(g, g.running) && forall r :: r in g.globals ==> Marked(g, r)
    ensures var g' := g.(white := !g.white, phase := SwpAllgc, sweep := Some(|g.allgc|)); InSweep(g', doomed)
  {
    var g' := g.(white := !g.white, phase := SwpAllgc, sweep := Some(|g.allgc|));
    assert forall o :: o in g.heap ==> !g.heap[o].mark.Gray?;
    assert forall o :: o in g.heap ==> (IsDead(g', o) <==> g.heap[o].mark.White?);
    assert Heap(g');
    assert Apart(g', doomed);
    forall o, r | o in g'.heap && !IsDead(g', o) && r in g'.heap[o].refs ensures r in g'.heap && !IsDead(g', r) {
      assert Marked(g, r);
    }
    assert Closed(g') by { assert forall r :: Marked(g, r) ==> r in g'.heap && !IsDead(g', r); }
    hide Heap, Closed, Apart, GrayListed, NoBlackToWhite;
  }

  // ----- sweeping -----

  /** A dead object is freed. */
  lemma Freed(g: State, doomed: set<Obj>)
    requires InSweep(g, doomed) && g.sweep.Some? && g.sweep.value > 0
    requires IsDead(g, g.allgc[|g.allgc| - g.sweep.value])
    ensures InSweep(SweepOne(g), doomed)
  {
    var pos := |g.allgc| - g.sweep.value;
    FreedHeap(g, pos);
    FreedRefs(g, pos, doomed);
    FreedSwept(g, pos, doomed);
    hide Heap, Closed, Apart, Swept, SweepOne;
  }

  lemma FreedSwept(g: State, pos: nat, doomed: set<Obj>)
    requires NoDup(g.allgc) && Swept(g, doomed)
    requires g.sweep.Some? && 0 < g.sweep.value <= |g.allgc| && pos == |g.allgc| - g.sweep.value && IsDead(g, g.allgc[pos])
    ensures Swept(SweepOne(g), doomed)
  {
    assert forall i :: 0 <= i < pos ==> SweepOne(g).allgc[i] == g.allgc[i] && g.allgc[i] != g.allgc[pos];
  }

  lemma FreedHeap(g: State, pos: nat)
    requires Heap(g) && g.sweep.Some? && 0 < g.sweep.value && pos == |g.allgc| - g.sweep.value && IsDead(g, g.allgc[pos])
    requires !IsDead(g, g.mainthread) && !IsDead(g, g.running)
    ensures Heap(SweepOne(g))
    ensures g.allgc[pos] !in SweepOne(g).heap
  {
    Removed(g.allgc, pos);
  }

  lemma FreedRefs(g: State, pos: nat, doomed: set<Obj>)
    requires Closed(g) && Apart(g, doomed)
    requires g.sweep.Some? && 0 < g.sweep.value <= |g.allgc| && pos == |g.allgc| - g.sweep.value && IsDead(g, g.allgc[pos])
    ensures Closed(SweepOne(g)) && Apart(SweepOne(g), doomed)
  {
    var g' := SweepOne(g);
    assert forall o :: IsDead(g', o) == (IsDead(g, o) && o != g.allgc[pos]);
  }

  /** Any other object gets the current white. */
  lemma Whitened(g: State, doomed: set<Obj>)
    requires InSweep(g, doomed) && g.sweep.Some? && g.sweep.value > 0
    requires !IsDead(g, g.allgc[|g.allgc| - g.sweep.value])
    ensures InSweep(SweepOne(g), doomed)
  {
    var curr := g.allgc[|g.allgc| - g.sweep.value];
    assert curr in g.allgc;
    WhitenedHeap(g, curr, doomed);
    WhitenedSwept(g, curr, doomed);
    hide Heap, Closed, Apart, Swept, SweepOne;
  }

  lemma WhitenedHeap(g: State, curr: Obj, doomed: set<Obj>)
    requires Heap(g) && Closed(g) && Apart(g, doomed) && g.sweep.Some? && 0 < g.sweep.value <= |g.allgc|
    requires curr == g.allgc[|g.allgc| - g.sweep.value] && curr in g.heap && !IsDead(g, curr)
    ensures Heap(SweepOne(g)) && Closed(SweepOne(g)) && Apart(SweepOne(g), doomed)
  {
    var g' := SweepOne(g);
    assert forall o :: IsDead(g', o) == IsDead(g, o);
    assert Remarked(g, g');
    hide SweepOne;
    RemarkedHeap(g, g');
    RemarkedRefs(g, g', doomed);
  }

  /** Only marks have changed, and no object has died or come back. */
  ghost predicate Remarked(g: State, g': State) {
    && g' == g.(heap := g'.heap, sweep := g'.sweep) && g'.heap.Keys == g.heap.Keys
    && (forall o :: o in g.heap ==> g'.heap[o].kind == g.heap[o].kind && g'.heap[o].refs == g.heap[o].refs)
    && (forall o :: IsDead(g', o) == IsDead(g, o))
    && (g'.sweep.Some? ==> g'.sweep.value <= |g.allgc|)
  }

  lemma RemarkedHeap(g: State, g': State)
    requires Heap(g) && Remarked(g, g')
    ensures Heap(g')
  {
    hide IsDead;
  }

  lemma RemarkedRefs(g: State, g': State, doomed: set<Obj>)
    requires Closed(g) && Apart(g, doomed) && Remarked(g, g')
    ensures Closed(g') && Apart(g', doomed)
  {
    hide IsDead;
  }

  lemma WhitenedSwept(g: State, curr: Obj, doomed: set<Obj>)
    requires Swept(g, doomed) && g.sweep.Some? && 0 < g.sweep.value <= |g.allgc|
    requires curr == g.allgc[|g.allgc| - g.sweep.value] && curr in g.heap && !IsDead(g, curr)
    ensures Swept(SweepOne(g), doomed)
  {
    assert forall o :: IsDead(SweepOne(g), o) == IsDead(g, o);
  }

  lemma SweepOneKeeps(g: State, doomed: set<Obj>)
    requires InSweep(g, doomed) && g.sweep.Some? && g.sweep.value > 0
    ensures 0 < g.sweep.value <= |g.allgc|
    ensures var g' := SweepOne(g);
            && InSweep(g', doomed) && Sweepable(g')
            && g'.sweep == Some(g.sweep.value - 1) && g'.phase == g.phase
  {
    if IsDead(g, g.allgc[|g.allgc| - g.sweep.value]) {
      Freed(g, doomed);
    } else {
      Whitened(g, doomed);
    }
  }

  lemma Removed(l: seq<Obj>, pos: nat)
    requires NoDup(l) && pos < |l|
    ensures var r := l[..pos] + l[pos + 1..]; NoDup(r) && forall x :: x in r <==> x in l && x != l[pos]
  {
    var r := l[..pos] + l[pos + 1..];
    assert forall k :: 0 <= k < |r| ==> r[k] == l[if k < pos then k else k + 1];
    forall x | x in l && x != l[pos] ensures x in r {
      var k :| 0 <= k < |l| && l[k] == x;
      assert r[if k < pos then k else k - 1] == x;
    }
  }

  lemma SweepDone(g: State, doomed: set<Obj>)
    requires InSweep(g, doomed) && g.sweep == Some(0)
    ensures InSweep(g.(sweep := None), doomed)
  {
  }

  lemma {:induction false} SweepListKeeps(g: State, n: nat, doomed: set<Obj>)
    requires InSweep(g, doomed) && g.sweep.Some? && Sweepable(g)
    ensures var g' := SweepList(g, n); InSweep(g', doomed) && g'.phase == g.phase
    decreases n
  {
    hide InSweep, SweepOne, Sweepable;
    if g.sweep.value == 0 {
      SweepDone(g, doomed);
    } else if n > 0 {
      SweepOneKeeps(g, doomed);
      SweepListKeeps(SweepOne(g), n - 1, doomed);
    }
  }

  lemma {:induction false} SweepToLiveKeeps(g: State, doomed: set<Obj>)
    requires InSweep(g, doomed) && g.sweep.Some?
    ensures var g' := SweepToLive(g); InSweep(g', doomed) && g'.phase == g.phase
    decreases g.sweep.value
  {
    assert Sweepable(g);
    hide Heap, Closed, Apart, Swept, SweepOne;
    if g.sweep.value == 0 {
      SweepDone(g, doomed);
    } else {
      SweepOneKeeps(g, doomed);
      var g1 := SweepOne(g);
      if IsDead(g, g.allgc[|g.allgc| - g.sweep.value]) {
        SweepToLiveKeeps(g1, doomed);
      } else if g1.sweep.value == 0 {
        SweepDone(g1, doomed);
      }
    }
  }

  /** When the sweep is over, every object has the current white and nothing doomed is left. */
  lemma SweptAll(g: State, doomed: set<Obj>, ph: Phase, next: Option<nat>)
    requires InSweep(g, doomed) && g.sweep.None? && (next.Some? ==> next.value == 0)
    requires next.Some? ==> ph.SwpFinobj? || ph.SwpToBeFnz?
    ensures AtRest(g.(phase := ph, sweep := next), doomed)
  {
    forall o | o in g.heap ensures g.heap[o].mark == White(g.white) {
      assert o in g.allgc;
    }
  }

  // ----- the collector -----

  lemma AtomicEnds(g: State, doomed: set<Obj>)
    requires InMark(g, doomed) && g.phase.EnterAtomic?
    ensures InSweep(EnterSweep(AtomicStep(g)), doomed) && EnterSweep(AtomicStep(g)).phase.SwpAllgc?
  {
    AtomicMarked(g, doomed);
    var g1 := AtomicMark(g);
    Flipped(g1, doomed);
    hide InSweep, Marking;
    SweepToLiveKeeps(AtomicStep(g).(phase := SwpAllgc, sweep := Some(|g1.allgc|)), doomed);
  }

  /** What becomes doomed in a step of the collector. */
  ghost function DoomStep(g: State, doomed: set<Obj>): set<Obj> {
    if g.phase.Pause? then Garbage(g) else doomed
  }

  lemma SingleStepKeeps(g: State, doomed: set<Obj>)
    requires Inv(g, doomed)
    ensures Inv(SingleStep(g), DoomStep(g, doomed))
  {
    hide Heap, Closed, Apart, GrayListed, NoBlackToWhite, Alive, PropagateMark, RestartCollection, SweepList, MarkAll;
    InvBasics(g, doomed);
    match g.phase
    case Pause => Restarted(g, doomed);
    case Propagate =>
      if g.gray == [] {
        PhaseAside(g, EnterAtomic, [], {}, doomed);
      } else {
        PropagateMarkKeeps(g, [], doomed);
      }
    case EnterAtomic => AtomicEnds(g, doomed);
    case SwpAllgc =>
      if g.sweep.Some? {
        SweepListKeeps(g, GCSWEEPMAX, doomed);
      } else {
        SweptAll(g, doomed, SwpFinobj, Some(0));
      }
    case _ => RestKeeps(g, doomed);
  }

  /** The phases after the sweep only advance. */
  lemma RestKeeps(g: State, doomed: set<Obj>)
    requires AtRest(g, doomed) && (g.phase.SwpFinobj? || g.phase.SwpToBeFnz? || g.phase.SwpEnd? || g.phase.CallFin?)
    ensures var g' := SingleStep(g); AtRest(g', doomed) && !KeepInvariant(g') && !g'.phase.SwpAllgc?
  {
    hide Heap, Closed, Apart;
    var g' := SingleStep(g);
    assert g'.heap == g.heap;
    Aside(g, g', {}, doomed);
  }

  /** A cycle that is given up is swept without a flip: every object survives, in the current white. */
  lemma Abandoned(g: State, doomed: set<Obj>)
    requires InMark(g, doomed) && KeepInvariant(g)
    ensures InSweep(EnterSweep(g), {}) && EnterSweep(g).phase.SwpAllgc?
  {
    var g1 := g.(phase := SwpAllgc, sweep := Some(|g.allgc|));
    assert InSweep(g1, {});
    hide InSweep, InMark;
    SweepToLiveKeeps(g1, {});
  }
}
