/** The collector as lgc.c has it: `global_State` updated in place, with loops over the lists. Every method leaves
    the state that the function of the same name gives. */
module GcCollector {
  import opened Wrappers
  import opened Gc
  import opened GcInvariant
  import opened GcCycle
  import opened GcMutator
  import opened GcRuns

  lemma BornIsNew(g: State, doomed: set<Obj>)
    requires Inv(g, doomed)
    ensures g.born !in g.heap && g.running in g.heap && Heap(g)
  {
  }

  class Collector {
    var heap: map<Obj, Cell>
    var allgc: seq<Obj>
    var gray: seq<Obj>
    var grayagain: seq<Obj>
    var phase: Phase
    var white: bool
    var sweep: Option<nat>
    var mainthread: Obj
    var globals: seq<Obj>
    var running: Obj
    var born: Obj

    function Now(): State
      reads this
    {
      State(heap, allgc, gray, grayagain, phase, white, sweep, mainthread, globals, running, born)
    }

    /** `lua_newstate` */
    constructor ()
      ensures Initial(Now()) && Inv(Now(), {})
    {
      mainthread, running, born := 0, 0, 1;
      heap := map[0 := Cell(Thread, [], White(false))];
      allgc, gray, grayagain, globals := [0], [], [], [];
      phase, white, sweep := Pause, false, None;
      new;
      InitialInv(Now());
    }

    method Paint(o: Obj, m: Mark)
      modifies this`heap
      ensures Now() == SetMark(old(Now()), o, m)
    {
      if o in heap {
        heap := heap[o := heap[o].(mark := m)];
      }
    }

    /** `markobject` with `reallymarkobject` */
    method MarkObject(o: Obj)
      modifies this`heap, this`gray
      ensures Now() == Gc.MarkObject(old(Now()), o)
      decreases Whites(Now()), 1
    {
      if o in heap && heap[o].mark.White? {
        assert o in Whites(Now());
        var cell := heap[o];
        if HasGcList(cell.kind) {
          Paint(o, Gray);
          gray := [o] + gray;
        } else {
          Paint(o, Black);
          if !cell.kind.Str? {
            assert o !in Whites(Now()) && Whites(Now()) < old(Whites(Now()));
            MarkAll(cell.refs);
          }
        }
      }
    }

    /** The loop of a traversal over the references of one object. */
    method MarkAll(rs: seq<Obj>)
      modifies this`heap, this`gray
      ensures Now() == Gc.MarkAll(old(Now()), rs)
      decreases Whites(Now()), 2
    {
      var i := 0;
      while i < |rs|
        invariant 0 <= i <= |rs|
        invariant Gc.MarkAll(Now(), rs[i..]) == Gc.MarkAll(old(Now()), rs)
        invariant Whites(Now()) <= old(Whites(Now()))
        invariant Now() == old(Now()).(heap := heap, gray := gray)
      {
        MarkObject(rs[i]);
        assert rs[i..][1..] == rs[i + 1..];
        i := i + 1;
      }
    }

    /** `propagatemark` */
    method PropagateMark()
      requires gray != []
      modifies this`heap, this`gray, this`grayagain
      ensures Now() == Gc.PropagateMark(old(Now()))
    {
      var o := gray[0];
      var rs := RefsOf(Now(), o);
      Paint(o, Black);
      gray := gray[1..];
      if o in heap && heap[o].kind.Thread? && phase.Propagate? {
        Paint(o, Gray);
        grayagain := [o] + grayagain;
      }
      MarkAll(rs);
    }

    /** `propagateall` */
    method PropagateAll()
      modifies this`heap, this`gray, this`grayagain
      ensures Now() == Gc.PropagateAll(old(Now()))
    {
      while gray != []
        invariant Gc.PropagateAll(Now()) == Gc.PropagateAll(old(Now()))
        invariant Now() == old(Now()).(heap := heap, gray := gray, grayagain := grayagain)
        decreases Whites(Now()), |gray|
      {
        PropagateMark();
      }
    }

    /** `restartcollection` */
    method RestartCollection()
      modifies this`heap, this`gray, this`grayagain
      ensures Now() == Gc.RestartCollection(old(Now()))
    {
      gray, grayagain := [], [];
      MarkObject(mainthread);
      MarkAll(globals);
    }

    /** One object of `sweeplist`: unlinked and freed, or painted with the current white. */
    method SweepOne()
      requires sweep.Some? && 0 < sweep.value <= |allgc|
      modifies this`heap, this`allgc, this`sweep
      ensures Now() == Gc.SweepOne(old(Now()))
    {
      var pos := |allgc| - sweep.value;
      var curr := allgc[pos];
      if curr in heap && heap[curr].mark == White(!white) {
        allgc := allgc[..pos] + allgc[pos + 1..];
        heap := map o | o in heap && o != curr :: heap[o];
      } else {
        Paint(curr, White(white));
      }
      sweep := Some(sweep.value - 1);
    }

    /** `sweeplist` from `sweepgc` on */
    method SweepList(countin: nat)
      requires sweep.Some? && Sweepable(Now())
      modifies this`heap, this`allgc, this`sweep
      ensures Now() == Gc.SweepList(old(Now()), countin)
    {
      var i := 0;
      while sweep.value > 0 && i < countin
        invariant 0 <= i <= countin && sweep.Some? && Sweepable(Now())
        invariant Gc.SweepList(Now(), countin - i) == Gc.SweepList(old(Now()), countin)
        decreases countin - i
      {
        SweepOne();
        i := i + 1;
      }
      if sweep.value == 0 {
        sweep := None;
      }
    }

    /** `sweeptolive`: sweep single objects for as long as the pointer into the list stays where it was. */
    method SweepToLive()
      requires sweep.Some? && Sweepable(Now())
      modifies this`heap, this`allgc, this`sweep
      ensures Now() == Gc.SweepToLive(old(Now()))
    {
      var stays := true;
      while stays && sweep.value > 0
        invariant sweep.Some? && Sweepable(Now())
        invariant (if stays then Gc.SweepToLive(Now()) else if sweep.value == 0 then Now().(sweep := None) else Now())
                  == Gc.SweepToLive(old(Now()))
        decreases sweep.value
      {
        var curr := allgc[|allgc| - sweep.value];
        stays := curr in heap && heap[curr].mark == White(!white);
        SweepOne();
      }
      if sweep.value == 0 {
        sweep := None;
      }
    }

    /** `entersweep` */
    method EnterSweep()
      modifies this
      ensures Now() == Gc.EnterSweep(old(Now()))
    {
      phase := SwpAllgc;
      sweep := Some(|allgc|);
      SweepToLive();
    }

    /** `sweepstep` */
    method SweepStep(next: Phase, nextlist: Option<nat>)
      requires Sweepable(Now())
      modifies this
      ensures Now() == Gc.SweepStep(old(Now()), next, nextlist)
    {
      if sweep.Some? {
        SweepList(GCSWEEPMAX);
      } else {
        phase := next;
        sweep := nextlist;
      }
    }

    /** `atomic` */
    method AtomicStep()
      modifies this
      ensures Now() == Gc.AtomicStep(old(Now()))
    {
      hide Gc.MarkObject, Gc.MarkAll, Gc.PropagateAll;
      var again := grayagain;
      grayagain := [];
      phase := Atomic;
      MarkObject(running);
      MarkAll(globals);
      PropagateAll();
      gray := again;
      PropagateAll();
      white := !white;
    }

    /** `singlestep`; the invariant of the collector goes with it. */
    method SingleStep(ghost doomed: set<Obj>)
      requires Inv(Now(), doomed)
      modifies this
      ensures old(Sweepable(Now())) && Now() == Gc.SingleStep(old(Now()))
      ensures Inv(Now(), old(DoomStep(Now(), doomed)))
    {
      hide Inv, DoomStep;
      InvSweepable(Now(), doomed);
      SingleStepKeeps(Now(), doomed);
      match phase
      case Pause =>
        RestartCollection();
        phase := Propagate;
      case Propagate =>
        if gray == [] {
          phase := EnterAtomic;
        } else {
          PropagateMark();
        }
      case EnterAtomic =>
        AtomicStep();
        EnterSweep();
      case SwpAllgc => SweepStep(SwpFinobj, Some(0));
      case SwpFinobj => SweepStep(SwpToBeFnz, Some(0));
      case SwpToBeFnz => SweepStep(SwpEnd, None);
      case SwpEnd => phase := CallFin;
      case CallFin => phase := Pause;
      case Atomic =>
    }

    /** `luaC_runtilstate` for one state */
    method RunTil(target: Phase, ghost doomed: set<Obj>) returns (ghost left: set<Obj>)
      requires Inv(Now(), doomed) && !target.Atomic?
      modifies this
      ensures old(Sweepable(Now()) && !phase.Atomic?) && Now() == Gc.RunTil(old(Now()), target) && Inv(Now(), left)
    {
      left := doomed;
      InvSweepable(Now(), doomed);
      assert !phase.Atomic?;
      hide Inv, DoomStep, Gc.SingleStep;
      while phase != target
        invariant Inv(Now(), left) && Sweepable(Now()) && !phase.Atomic?
        invariant Gc.RunTil(Now(), target) == Gc.RunTil(old(Now()), target)
        decreases Distance(phase, target), SweepLeft(Now()), Whites(Now()), |gray|
      {
        StepAdvances(Now(), target);
        var next := DoomStep(Now(), left);
        SingleStep(left);
        left := next;
      }
    }

    /** The first step of `fullinc`: a cycle that is still marking is given up. */
    method GiveUp(ghost doomed: set<Obj>) returns (ghost left: set<Obj>)
      requires Inv(Now(), doomed)
      modifies this
      ensures Now() == Abandon(old(Now())) && Inv(Now(), left)
      ensures old(Sweepable(Now()) && !phase.Atomic?)
    {
      InvSweepable(Now(), doomed);
      assert !phase.Atomic?;
      left := if KeepInvariant(Now()) then {} else doomed;
      if phase.Propagate? || phase.EnterAtomic? {
        Abandoned(Now(), doomed);
        EnterSweep();
      }
      hide Inv, Gc.EnterSweep;
    }

    /** `fullinc` */
    method FullInc(ghost doomed: set<Obj>)
      requires Inv(Now(), doomed)
      modifies this
      ensures old(Sweepable(Now()) && !phase.Atomic?) && Now() == Gc.FullInc(old(Now()))
    {
      hide Inv, Gc.RunTil, Gc.EnterSweep;
      ghost var left := GiveUp(doomed);
      left := RunTil(Pause, left);
      left := RunTil(Propagate, left);
      Hurried(Now(), left);
      phase := EnterAtomic;
      left := RunTil(CallFin, left);
      left := RunTil(Pause, left);
    }

    /** A full collection as its caller sees it: what is left is exactly what the program can reach. */
    method FullGc(ghost doomed: set<Obj>)
      requires Inv(Now(), doomed)
      modifies this
      ensures phase.Pause? && forall o :: o in heap <==> old(Reachable(Now(), o))
      ensures forall o :: o in heap ==>
                o in old(heap) && heap[o] == Cell(old(heap)[o].kind, old(heap)[o].refs, White(white))
    {
      InvSweepable(Now(), doomed);
      assert !phase.Atomic?;
      FullCollection(Now(), doomed);
      hide Gc.FullInc, Inv, Reachable;
      FullInc(doomed);
    }

    /** `luaC_objbarrier` */
    method Barrier(o: Obj, v: Obj)
      modifies this`heap, this`gray
      ensures Now() == Gc.Barrier(old(Now()), o, v)
    {
      if o in heap && heap[o].mark.Black? && v in heap && heap[v].mark.White? {
        if phase.Propagate? || phase.EnterAtomic? || phase.Atomic? {
          MarkObject(v);
        } else {
          Paint(o, White(white));
        }
      }
    }

    /** `luaC_objbarrierback` */
    method BarrierBack(o: Obj, v: Obj)
      modifies this`heap, this`grayagain
      ensures Now() == Gc.BarrierBack(old(Now()), o, v)
    {
      if o in heap && heap[o].mark.Black? && v in heap && heap[v].mark.White? {
        Paint(o, Gray);
        grayagain := [o] + grayagain;
      }
    }

    /** A reference stored in an object, with its barrier. */
    method Store(o: Obj, v: Obj, back: bool, ghost doomed: set<Obj>)
      requires Inv(Now(), doomed) && Reachable(Now(), o) && Reachable(Now(), v) && OfKind(Now(), o, false)
      requires back ==> HasGcList(heap[o].kind)
      modifies this`heap, this`gray, this`grayagain
      ensures Now() == Gc.Store(old(Now()), o, v, back) && Inv(Now(), doomed)
      ensures OnlyRefs(old(Now()), Now(), o, old(heap)[o].refs + [v])
    {
      StoreEffect(Now(), o, v, back);
      StoreKeeps(Now(), o, v, back, doomed);
      hide Inv, Reachable;
      heap := heap[o := heap[o].(refs := heap[o].refs + [v])];
      if back {
        BarrierBack(o, v);
      } else {
        Barrier(o, v);
      }
    }

    /** `luaC_newobj`, with the new object pushed on the running stack. */
    method NewObject(kind: Kind, ghost doomed: set<Obj>) returns (o: Obj)
      requires Inv(Now(), doomed)
      modifies this`heap, this`allgc, this`born
      ensures o !in old(heap) && Now() == Gc.NewObject(old(Now()), kind) && Inv(Now(), doomed)
      ensures OneMore(old(Now()), Now(), o, kind) && Reachable(Now(), o)
    {
      hide Inv, Heap, OneMore, Reachable;
      BornIsNew(Now(), doomed);
      NewReached(Now(), kind);
      AllocateKeeps(Now(), kind, doomed);
      o := born;
      heap := heap[o := Cell(kind, [], White(white))];
      allgc := [o] + allgc;
      born := born + 1;
      heap := heap[running := heap[running].(refs := heap[running].refs + [o])];
    }
  }
}
