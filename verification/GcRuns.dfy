/** What the collector guarantees over whole runs, whatever the program does between its steps. */
module GcRuns {
  import opened Wrappers
  import opened Gc
  import opened GcInvariant
  import opened GcCycle
  import opened GcMutator

  // ----- runs -----

  /** The state `lua_newstate` leaves: the main thread and nothing else. */
  ghost predicate Initial(g: State) {
    && g.heap == map[g.mainthread := Cell(Thread, [], White(g.white))] && g.allgc == [g.mainthread]
    && g.gray == [] && g.grayagain == [] && g.phase.Pause? && g.sweep.None?
    && g.globals == [] && g.running == g.mainthread && g.born > g.mainthread
  }

  ghost predicate Run(g: State, acts: seq<Act>, g': State)
    decreases |acts|
  {
    if acts == [] then g' == g else Sweepable(g) && Legal(g, acts[0]) && Run(Next(g, acts[0]), acts[1..], g')
  }

  ghost function DoomAfter(g: State, doomed: set<Obj>, acts: seq<Act>): set<Obj>
    decreases |acts|
  {
    if acts == [] then doomed
    else if !Sweepable(g) then {}
    else DoomAfter(Next(g, acts[0]), Doom(g, doomed, acts[0]), acts[1..])
  }

  lemma {:induction false} RunKeeps(g: State, doomed: set<Obj>, acts: seq<Act>, g': State)
    requires Inv(g, doomed) && Run(g, acts, g')
    ensures Inv(g', DoomAfter(g, doomed, acts))
    decreases |acts|
  {
    hide Inv, Legal, Next, Doom;
    if acts != [] {
      NextKeeps(g, doomed, acts[0]);
      RunKeeps(Next(g, acts[0]), Doom(g, doomed, acts[0]), acts[1..], g');
    }
  }

  lemma InitialInv(g: State)
    requires Initial(g)
    ensures Inv(g, {})
  {
    assert g.allgc[0] == g.mainthread;
  }

  /** Safety: in every state of every run, whatever the program can still reach is there and is not dead; and
      while marking, no black object refers to a white one and the gray lists hold exactly the gray objects. */
  lemma Safety(g0: State, acts: seq<Act>, g: State)
    requires Initial(g0) && Run(g0, acts, g)
    ensures forall o :: Reachable(g, o) ==> o in g.heap && !IsDead(g, o)
    ensures KeepInvariant(g) ==> NoBlackToWhite(g, {}) && GrayListed(g, [])
    ensures forall o :: o in g.heap && g.heap[o].mark.Black? ==> KeepInvariant(g) || g.phase.SwpAllgc?
  {
    InitialInv(g0);
    RunKeeps(g0, {}, acts, g);
    var doomed := DoomAfter(g0, {}, acts);
    InvBasics(g, doomed);
    forall o | Reachable(g, o) ensures o in g.heap && !IsDead(g, o) {
      ReachableSafe(g, doomed, o);
    }
  }

  // ----- steps of the collector do not touch the program's data -----

  /** Nothing is new, and what is left has the references it had. */
  ghost predicate Within(g: State, g': State) {
    && g'.mainthread == g.mainthread && g'.running == g.running && g'.globals == g.globals
    && forall o :: o in g'.heap ==> o in g.heap && g'.heap[o].kind == g.heap[o].kind && g'.heap[o].refs == g.heap[o].refs
  }

  lemma WithinTrans(a: State, b: State, c: State)
    requires Within(a, b) && Within(b, c)
    ensures Within(a, c)
  {
  }

  lemma MarksWithin(g: State, g': State)
    requires Marks(g, g')
    ensures Within(g, g')
  {
  }

  lemma PropagateWithin(g: State)
    requires g.gray != []
    ensures Within(g, PropagateMark(g))
  {
    var o := g.gray[0];
    var g1 := SetMark(g, o, Black).(gray := g.gray[1..]);
    var g2 := if o in g.heap && g.heap[o].kind.Thread? && g.phase.Propagate?
              then SetMark(g1, o, Gray).(grayagain := [o] + g1.grayagain) else g1;
    assert Within(g, g2);
    MarksWithin(g2, MarkAll(g2, RefsOf(g, o)));
  }

  lemma {:induction false} PropagateAllWithin(g: State)
    ensures Within(g, PropagateAll(g))
    decreases Whites(g), |g.gray|
  {
    hide Within, PropagateMark;
    if g.gray == [] {
      SelfWithin(g);
    } else {
      PropagateWithin(g);
      PropagateAllWithin(PropagateMark(g));
      WithinTrans(g, PropagateMark(g), PropagateAll(g));
    }
  }

  lemma SelfWithin(g: State)
    ensures Within(g, g)
  {
  }

  lemma RootsWithin(g: State, first: Obj, rest: seq<Obj>)
    ensures Within(g, MarkAll(MarkObject(g, first), rest))
  {
    var g1 := MarkObject(g, first);
    MarksWithin(g, g1);
    MarksWithin(g1, MarkAll(g1, rest));
  }

  lemma ListsWithin(g: State, g': State)
    requires g' == g.(gray := g'.gray, grayagain := g'.grayagain, phase := g'.phase, white := g'.white)
    ensures Within(g, g')
  {
  }

  lemma AtomicWithin(g: State)
    ensures Within(g, AtomicStep(g))
  {
    hide Within, MarkAll, MarkObject, PropagateAll;
    var g0 := g.(grayagain := [], phase := Atomic);
    var g1 := MarkAll(MarkObject(g0, g.running), g.globals);
    var g2 := PropagateAll(g1);
    var g3 := g2.(gray := g.grayagain);
    var g4 := PropagateAll(g3);
    ListsWithin(g, g0);
    ListsWithin(g2, g3);
    ListsWithin(g4, AtomicStep(g));
    RootsWithin(g0, g.running, g.globals);
    PropagateAllWithin(g1);
    PropagateAllWithin(g3);
    WithinTrans(g, g0, g1);
    WithinTrans(g, g1, g2);
    hide AtomicStep;
    WithinTrans(g, g2, g3);
    WithinTrans(g, g3, g4);
    WithinTrans(g, g4, AtomicStep(g));
  }

  lemma {:induction false} SweepListWithin(g: State, n: nat)
    requires g.sweep.Some? && Sweepable(g)
    ensures Within(g, SweepList(g, n))
    decreases n
  {
    if g.sweep.value > 0 && n > 0 {
      var g1 := SweepOne(g);
      assert Within(g, g1);
      hide SweepOne;
      SweepListWithin(g1, n - 1);
      WithinTrans(g, g1, SweepList(g1, n - 1));
    }
  }

  lemma {:induction false} SweepToLiveWithin(g: State)
    requires g.sweep.Some? && Sweepable(g)
    ensures Within(g, SweepToLive(g))
    decreases g.sweep.value
  {
    if g.sweep.value > 0 {
      var g1 := SweepOne(g);
      assert Within(g, g1);
      if IsDead(g, g.allgc[|g.allgc| - g.sweep.value]) {
        hide SweepOne;
        SweepToLiveWithin(g1);
        WithinTrans(g, g1, SweepToLive(g1));
      }
    }
  }

  lemma EnterSweepWithin(g: State)
    ensures Within(g, EnterSweep(g))
  {
    var g1 := g.(phase := SwpAllgc, sweep := Some(|g.allgc|));
    SweepToLiveWithin(g1);
  }

  lemma SingleStepWithin(g: State)
    requires Sweepable(g)
    ensures Within(g, SingleStep(g))
  {
    match g.phase
    case Pause =>
      RootsWithin(g.(gray := [], grayagain := []), g.mainthread, g.globals);
      hide MarkAll, MarkObject;
    case Propagate =>
      if g.gray != [] {
        PropagateWithin(g);
      }
    case EnterAtomic =>
      AtomicWithin(g);
      EnterSweepWithin(AtomicStep(g));
      hide AtomicStep, EnterSweep;
      WithinTrans(g, AtomicStep(g), EnterSweep(AtomicStep(g)));
    case _ =>
      hide SweepList;
      if g.sweep.Some? {
        SweepListWithin(g, GCSWEEPMAX);
      }
  }

  lemma {:induction false} StillReached(g: State, g': State, doomed: set<Obj>, o: Obj, n: nat)
    requires Within(g, g') && Inv(g', doomed) && ReachedIn(g, o, n)
    ensures ReachedIn(g', o, n) && o in g'.heap
    decreases n
  {
    InvBasics(g', doomed);
    if !Root(g, o) {
      var x :| x in g.heap && o in g.heap[x].refs && ReachedIn(g, x, n - 1);
      StillReached(g, g', doomed, x, n - 1);
    }
    ReachedSafe(g', doomed, o, n);
  }

  lemma {:induction false} ReachedBefore(g: State, g': State, o: Obj, n: nat)
    requires Within(g, g') && ReachedIn(g', o, n)
    ensures ReachedIn(g, o, n)
    decreases n
  {
    if !Root(g, o) {
      var x :| x in g'.heap && o in g'.heap[x].refs && ReachedIn(g', x, n - 1);
      ReachedBefore(g, g', x, n - 1);
    }
  }

  /** What is within another state and keeps the invariant has the same reachable objects, all of them there. */
  lemma SameReach(g: State, g': State, doomed: set<Obj>)
    requires Within(g, g') && Inv(g', doomed)
    ensures forall o :: Reachable(g', o) <==> Reachable(g, o)
    ensures forall o :: Reachable(g, o) ==>
              o in g.heap && o in g'.heap && g'.heap[o].kind == g.heap[o].kind && g'.heap[o].refs == g.heap[o].refs
  {
    forall o ensures Reachable(g', o) <==> Reachable(g, o)
             ensures Reachable(g, o) ==> o in g'.heap
    {
      if Reachable(g, o) {
        var n: nat :| ReachedIn(g, o, n);
        StillReached(g, g', doomed, o, n);
      }
      if Reachable(g', o) {
        var n: nat :| ReachedIn(g', o, n);
        ReachedBefore(g, g', o, n);
      }
    }
  }

  /** A step of the collector, in any state of any run, changes neither what the program can reach nor the
      references of any reachable object: sweeping never frees an object reachable from the roots. */
  lemma StepIsInvisible(g0: State, acts: seq<Act>, g: State)
    requires Initial(g0) && Run(g0, acts, g) && Sweepable(g)
    ensures var g' := SingleStep(g);
            && (forall o :: Reachable(g', o) <==> Reachable(g, o))
            && (forall o :: Reachable(g, o) ==>
                  o in g.heap && o in g'.heap && g'.heap[o].kind == g.heap[o].kind && g'.heap[o].refs == g.heap[o].refs)
  {
    InitialInv(g0);
    RunKeeps(g0, {}, acts, g);
    SingleStepKeeps(g, DoomAfter(g0, {}, acts));
    SingleStepWithin(g);
    SameReach(g, SingleStep(g), DoomStep(g, DoomAfter(g0, {}, acts)));
  }

  // ----- completeness -----

  /** A run inside one cycle: it does not come back to the pause before its end, and the cycle is not given up. */
  ghost predicate CycleRun(g: State, acts: seq<Act>, g': State)
    decreases |acts|
  {
    if acts == [] then g' == g
    else && Sweepable(g) && !g.phase.Pause? && !acts[0].GiveUp? && Legal(g, acts[0])
         && CycleRun(Next(g, acts[0]), acts[1..], g')
  }

  lemma {:induction false} CycleKeeps(g: State, doomed: set<Obj>, acts: seq<Act>, g': State) returns (left: set<Obj>)
    requires Inv(g, doomed) && CycleRun(g, acts, g')
    ensures Inv(g', left) && forall o :: o in doomed && Intern(o) !in acts ==> o in left
    decreases |acts|
  {
    hide Inv, Legal, Next;
    if acts == [] {
      left := doomed;
    } else {
      NextKeeps(g, doomed, acts[0]);
      left := CycleKeeps(Next(g, acts[0]), Doom(g, doomed, acts[0]), acts[1..], g');
      assert acts == [acts[0]] + acts[1..];
    }
  }

  /** Completeness: an object that nothing reached when the cycle began, and that is not a string looked up since,
      has been freed when the next pause is reached; and everything then in the heap, whether it survived or was
      allocated in between, has the current white. */
  lemma Completeness(g0: State, before: seq<Act>, g: State, acts: seq<Act>, g': State)
    requires Initial(g0) && Run(g0, before, g) && g.phase.Pause? && Sweepable(g)
    requires CycleRun(SingleStep(g), acts, g') && g'.phase.Pause?
    ensures forall o :: o in g.heap && !Reachable(g, o) && Intern(o) !in acts ==> o !in g'.heap
    ensures forall o :: o in g'.heap ==> g'.heap[o].mark == White(g'.white)
  {
    InitialInv(g0);
    RunKeeps(g0, {}, before, g);
    SingleStepKeeps(g, DoomAfter(g0, {}, before));
    var left := CycleKeeps(SingleStep(g), Garbage(g), acts, g');
    forall o | o in g.heap && !Reachable(g, o) && Intern(o) !in acts ensures o !in g'.heap {
      assert o in Garbage(g);
    }
  }

  // ----- a full collection -----

  lemma {:induction false} RunTilKeeps(g: State, target: Phase, doomed: set<Obj>) returns (left: set<Obj>)
    requires Inv(g, doomed) && Sweepable(g) && !g.phase.Atomic? && !target.Atomic?
    ensures var g' := RunTil(g, target); Inv(g', left) && Within(g, g') && g'.phase == target
    ensures g.phase == target || (!g.phase.Pause? && (target.Pause? || Rank(target) >= Rank(g.phase))) ==> left == doomed
    decreases Distance(g.phase, target), SweepLeft(g), Whites(g), |g.gray|
  {
    hide Inv, Within, SingleStep;
    left := doomed;
    if g.phase == target {
      SelfWithin(g);
    } else {
      var g1 := SingleStep(g);
      StepAdvances(g, target);
      if !g.phase.Pause? && (target.Pause? || Rank(target) >= Rank(g.phase)) {
        NoPauseBetween(g.phase, g1.phase, target);
      }
      SingleStepKeeps(g, doomed);
      SingleStepWithin(g);
      left := RunTilKeeps(g1, target, DoomStep(g, doomed));
      WithinTrans(g, g1, RunTil(g1, target));
    }
  }

  lemma NoPauseBetween(a: Phase, b: Phase, target: Phase)
    requires !a.Atomic? && !b.Atomic? && !target.Atomic? && !a.Pause? && a != target && (target.Pause? || Rank(target) >= Rank(a))
    requires b == a || Distance(b, target) < Distance(a, target)
    ensures b == target || (!b.Pause? && (target.Pause? || Rank(target) >= Rank(b)))
  {
    Around(Rank(a), Rank(target));
    Around(Rank(b), Rank(target));
  }

  /** The second half of a full collection, from the pause on, frees exactly what was unreachable. */
  lemma CollectedFrom(p: State, doomed: set<Obj>)
    requires Inv(p, doomed) && p.phase.Pause? && Sweepable(p)
    ensures var q := RunTil(p, Propagate);
            var r := RunTil(RunTil(q.(phase := EnterAtomic), CallFin), Pause);
            Inv(r, Garbage(p)) && Within(p, r) && r.phase.Pause?
  {
    hide Inv, Within, Garbage, RunTil;
    var q := SingleStep(p);
    SingleStepKeeps(p, doomed);
    SingleStepWithin(p);
    assert q == RunTil(p, Propagate) by { OneStep(p); }
    hide SingleStep;
    var e := q.(phase := EnterAtomic);
    Hurried(q, Garbage(p));
    var c := RunTil(e, CallFin);
    var left := RunTilKeeps(e, CallFin, Garbage(p));
    var last := RunTilKeeps(c, Pause, left);
    var r := RunTil(c, Pause);
    assert Within(q, e) by { PhaseWithin(q, EnterAtomic); }
    WithinTrans(p, q, e);
    WithinTrans(p, e, c);
    WithinTrans(p, c, r);
  }

  lemma OneStep(p: State)
    requires p.phase.Pause? && Sweepable(p)
    ensures SingleStep(p) == RunTil(p, Propagate)
  {
    StepAdvances(p, Propagate);
    hide SingleStep;
  }

  lemma PhaseWithin(g: State, ph: Phase)
    ensures Within(g, g.(phase := ph))
  {
  }

  /** A full collection, started in any state the collector can be in, leaves exactly the objects the program can
      reach, with their references, all of them in the current white. */
  lemma FullCollection(g: State, doomed: set<Obj>)
    requires Inv(g, doomed) && Sweepable(g) && !g.phase.Atomic?
    ensures var g' := FullInc(g);
            && g'.phase.Pause?
            && (forall o :: o in g'.heap <==> Reachable(g, o))
            && (forall o :: o in g'.heap ==>
                  o in g.heap && g'.heap[o] == Cell(g.heap[o].kind, g.heap[o].refs, White(g'.white)))
  {
    var g1 := if KeepInvariant(g) then EnterSweep(g) else g;
    SelfWithin(g);
    if KeepInvariant(g) {
      Abandoned(g, doomed);
      EnterSweepWithin(g);
    }
    var d1 := if KeepInvariant(g) then {} else doomed;
    assert Inv(g1, d1);
    hide Inv, Within, EnterSweep, RunTil, Reachable;
    var p := RunTil(g1, Pause);
    var d2 := RunTilKeeps(g1, Pause, d1);
    WithinTrans(g, g1, p);
    CollectedFrom(p, d2);
    var g' := FullInc(g);
    WithinTrans(g, p, g');
    SameReach(g, p, d2);
    SameReach(g, g', Garbage(p));
    AllReached(p, g');
  }

  lemma AllReached(p: State, r: State)
    requires Inv(r, Garbage(p)) && Within(p, r) && r.phase.Pause?
    ensures forall o :: o in r.heap ==>
              && Reachable(p, o) && o in p.heap
              && r.heap[o] == Cell(p.heap[o].kind, p.heap[o].refs, White(r.white))
  {
  }
}
