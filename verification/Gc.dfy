/** The incremental collector of lgc.c as functions on a state: marking, propagation, the atomic step, the
    sweep, the barriers, and what a program may do between two steps of the collector. */
module Gc {
  import opened Wrappers

  type Obj = nat

  /** The object types that `reallymarkobject` and `propagatemark` tell apart: strings have nothing to
      visit; closed upvalues and userdata without user values are visited at once; the others wait in a
      gray list, and threads have no barriers. */
  datatype Kind = Str | Upvalue | Userdata0 | Table | Thread | Other

  /** The colour bits; the two whites take turns at being the current one. */
  datatype Mark = White(which: bool) | Gray | Black

  datatype Cell = Cell(kind: Kind, refs: seq<Obj>, mark: Mark)

  datatype Phase = Pause | Propagate | EnterAtomic | Atomic | SwpAllgc | SwpFinobj | SwpToBeFnz | SwpEnd | CallFin

  /** `global_State`. `allgc` is the list of all objects, newest first; `sweep` is how many objects are
      still to be visited from where `sweepgc` points, or nothing when it is NULL. `globals` are the
      registry and the metatables of the basic types. `born` bounds the objects ever created. */
  datatype State = State(
    heap: map<Obj, Cell>, allgc: seq<Obj>, gray: seq<Obj>, grayagain: seq<Obj>,
    phase: Phase, white: bool, sweep: Option<nat>,
    mainthread: Obj, globals: seq<Obj>, running: Obj, born: Obj)

  const GCSWEEPMAX := 100

  predicate IsWhite(g: State, o: Obj) {
    o in g.heap && g.heap[o].mark.White?
  }

  /** `isdead`: marked with the white that is not the current one. */
  predicate IsDead(g: State, o: Obj) {
    o in g.heap && g.heap[o].mark == White(!g.white)
  }

  /** `keepinvariant` */
  predicate KeepInvariant(g: State) {
    g.phase.Propagate? || g.phase.EnterAtomic? || g.phase.Atomic?
  }

  function SetMark(g: State, o: Obj, m: Mark): State {
    if o in g.heap then g.(heap := g.heap[o := g.heap[o].(mark := m)]) else g
  }

  function SetRefs(g: State, o: Obj, rs: seq<Obj>): State {
    if o in g.heap then g.(heap := g.heap[o := g.heap[o].(refs := rs)]) else g
  }

  function RefsOf(g: State, o: Obj): seq<Obj> {
    if o in g.heap then g.heap[o].refs else []
  }

  /** Objects that `getgclist` accepts. */
  predicate HasGcList(k: Kind) {
    k.Table? || k.Thread? || k.Other?
  }

  function Whites(g: State): set<Obj> {
    set o | o in g.heap && g.heap[o].mark.White?
  }

  // ----- marking -----

  /** Marking changes marks and the gray list: white objects turn gray when they have to wait to be visited
      and black when they do not, and no other mark changes. */
  predicate Marks(g: State, g': State) {
    && g' == g.(heap := g'.heap, gray := g'.gray)
    && g'.heap.Keys == g.heap.Keys
    && forall o :: o in g.heap ==>
         && g'.heap[o] == g.heap[o].(mark := g'.heap[o].mark)
         && (|| g'.heap[o].mark == g.heap[o].mark
             || (g.heap[o].mark.White? && g'.heap[o].mark == if HasGcList(g.heap[o].kind) then Gray else Black))
  }

  /** `markobject` */
  function MarkObject(g: State, o: Obj): (r: State)
    ensures Marks(g, r) && Whites(r) <= Whites(g) && (Whites(r) == Whites(g) ==> r == g)
    decreases Whites(g), 1, 0
  {
    if !IsWhite(g, o) then g
    else
      assert o in Whites(g);
      match g.heap[o].kind
      case Str => SetMark(g, o, Black)
      case Upvalue => VisitNow(g, o)
      case Userdata0 => VisitNow(g, o)
      case _ => SetMark(g, o, Gray).(gray := [o] + g.gray)
  }

  /** The two kinds of object that `reallymarkobject` blackens and visits at once. */
  function VisitNow(g: State, o: Obj): (r: State)
    requires IsWhite(g, o) && !HasGcList(g.heap[o].kind)
    ensures Marks(g, r) && Whites(r) <= Whites(g) && (Whites(r) == Whites(g) ==> r == g)
    decreases Whites(g), 0, 0
  {
    var g1 := SetMark(g, o, Black);
    assert o in Whites(g) && o !in Whites(g1);
    MarkAll(g1, g.heap[o].refs)
  }

  /** Marking a run of values, as every traversal does. */
  function MarkAll(g: State, rs: seq<Obj>): (r: State)
    ensures Marks(g, r) && Whites(r) <= Whites(g) && (Whites(r) == Whites(g) ==> r == g)
    decreases Whites(g), 2, |rs|
  {
    if rs == [] then g else MarkAll(MarkObject(g, rs[0]), rs[1..])
  }

  /** `propagatemark`: the first gray object is visited and turns black; while the program may still run,
      a thread goes back to a gray list at once. */
  function PropagateMark(g: State): (r: State)
    requires g.gray != []
    ensures Whites(r) <= Whites(g) && (Whites(r) == Whites(g) ==> r.gray == g.gray[1..])
  {
    var o := g.gray[0];
    var g1 := SetMark(g, o, Black).(gray := g.gray[1..]);
    var g2 := if o in g.heap && g.heap[o].kind.Thread? && g.phase.Propagate?
              then SetMark(g1, o, Gray).(grayagain := [o] + g1.grayagain) else g1;
    MarkAll(g2, RefsOf(g, o))
  }

  /** `propagateall` */
  function PropagateAll(g: State): State
    decreases Whites(g), |g.gray|
  {
    if g.gray == [] then g else PropagateAll(PropagateMark(g))
  }

  /** `restartcollection` */
  function RestartCollection(g: State): State {
    MarkAll(MarkObject(g.(gray := [], grayagain := []), g.mainthread), g.globals)
  }

  // ----- sweeping -----

  /** One turn of the loop of `sweeplist`. */
  function SweepOne(g: State): State
    requires g.sweep.Some? && 0 < g.sweep.value <= |g.allgc|
  {
    var pos := |g.allgc| - g.sweep.value;
    var curr := g.allgc[pos];
    var left := Some(g.sweep.value - 1);
    if IsDead(g, curr) then
      g.(heap := map o | o in g.heap && o != curr :: g.heap[o],
         allgc := g.allgc[..pos] + g.allgc[pos + 1..], sweep := left)
    else SetMark(g, curr, White(g.white)).(sweep := left)
  }

  predicate Sweepable(g: State) {
    g.sweep.Some? ==> g.sweep.value <= |g.allgc|
  }

  /** `sweeplist` for at most `n` objects. */
  function SweepList(g: State, n: nat): (r: State)
    requires g.sweep.Some? && Sweepable(g)
    ensures Sweepable(r) && r.phase == g.phase
    ensures r.sweep.Some? ==> r.sweep.value + n <= g.sweep.value
    decreases n
  {
    if g.sweep.value == 0 then g.(sweep := None)
    else if n == 0 then g
    else SweepList(SweepOne(g), n - 1)
  }

  /** `sweeptolive`: from the head of the list to just after the first object that is not dead. */
  function SweepToLive(g: State): (r: State)
    requires g.sweep.Some? && Sweepable(g)
    ensures Sweepable(r) && r.phase == g.phase
    decreases g.sweep.value
  {
    if g.sweep.value == 0 then g.(sweep := None)
    else
      var curr := g.allgc[|g.allgc| - g.sweep.value];
      var g1 := SweepOne(g);
      if IsDead(g, curr) then SweepToLive(g1)
      else if g1.sweep.value == 0 then g1.(sweep := None) else g1
  }

  /** `entersweep` */
  function EnterSweep(g: State): (r: State)
    ensures Sweepable(r) && r.phase.SwpAllgc?
  {
    SweepToLive(g.(phase := SwpAllgc, sweep := Some(|g.allgc|)))
  }

  /** `sweepstep` */
  function SweepStep(g: State, next: Phase, nextlist: Option<nat>): State
    requires Sweepable(g)
  {
    if g.sweep.Some? then SweepList(g, GCSWEEPMAX) else g.(phase := next, sweep := nextlist)
  }

  // ----- the collector's steps -----

  /** The marking part of `atomic`. */
  function AtomicMark(g: State): State {
    var again := g.grayagain;
    var g1 := MarkAll(MarkObject(g.(grayagain := [], phase := Atomic), g.running), g.globals);
    PropagateAll(PropagateAll(g1).(gray := again))
  }

  /** `atomic`: finish marking and make the other white the current one. */
  function AtomicStep(g: State): State {
    AtomicMark(g).(white := !g.white)
  }

  /** `singlestep`. The lists of objects with finalizers are empty. */
  function SingleStep(g: State): State
    requires Sweepable(g)
  {
    match g.phase
    case Pause => RestartCollection(g).(phase := Propagate)
    case Propagate => if g.gray == [] then g.(phase := EnterAtomic) else PropagateMark(g)
    case EnterAtomic => EnterSweep(AtomicStep(g))
    case SwpAllgc => SweepStep(g, SwpFinobj, Some(0))
    case SwpFinobj => SweepStep(g, SwpToBeFnz, Some(0))
    case SwpToBeFnz => SweepStep(g, SwpEnd, None)
    case SwpEnd => g.(phase := CallFin)
    case CallFin => g.(phase := Pause)
    case Atomic => g
  }

  /** How many phases a collector has to pass to get to `target`. */
  function Distance(from: Phase, target: Phase): nat {
    (Rank(target) - Rank(from)) % 8
  }

  function Rank(p: Phase): nat {
    match p
    case Pause => 0
    case Propagate => 1
    case EnterAtomic => 2
    case Atomic => 8
    case SwpAllgc => 3
    case SwpFinobj => 4
    case SwpToBeFnz => 5
    case SwpEnd => 6
    case CallFin => 7
  }

  function SweepLeft(g: State): nat {
    if g.sweep.Some? then g.sweep.value + 1 else 0
  }

  /** A step of the collector changes the phase or does some of a bounded amount of work in it. */
  lemma StepAdvances(g: State, target: Phase)
    requires Sweepable(g) && !g.phase.Atomic? && !target.Atomic? && g.phase != target
    ensures var g' := SingleStep(g);
            && Sweepable(g') && !g'.phase.Atomic?
            && (|| Distance(g'.phase, target) < Distance(g.phase, target)
                || (&& g'.phase == g.phase
                    && (|| SweepLeft(g') < SweepLeft(g)
                        || (SweepLeft(g') == SweepLeft(g) && Whites(g') < Whites(g))
                        || (SweepLeft(g') == SweepLeft(g) && Whites(g') == Whites(g) && |g'.gray| < |g.gray|))))
  {
    if KeepInvariant(g) || g.phase.Pause? {
      MarkingAdvances(g);
    } else {
      SweepingAdvances(g);
    }
    Nearer(g.phase, SingleStep(g).phase, target);
    hide SingleStep, Whites, SweepLeft, Distance, Rank, Sweepable;
  }

  /** The next phase is one nearer to any other one. */
  lemma Nearer(a: Phase, b: Phase, target: Phase)
    requires !a.Atomic? && !b.Atomic? && !target.Atomic? && a != target
    ensures Rank(b) == (Rank(a) + 1) % 8 ==> Distance(b, target) < Distance(a, target)
  {
    Around(Rank(a), Rank(target));
    Around(Rank(b), Rank(target));
    assert Rank(a) != Rank(target) && Rank(a) < 8;
    hide Rank;
  }

  lemma Around(from: nat, target: nat)
    requires from < 8 && target < 8
    ensures (target - from) % 8 == if target >= from then target - from else target - from + 8
    ensures (from + 1) % 8 == if from == 7 then 0 else from + 1
  {
  }

  lemma SweepingAdvances(g: State)
    requires Sweepable(g) && !g.phase.Atomic? && !KeepInvariant(g) && !g.phase.Pause?
    ensures var g' := SingleStep(g);
            && Sweepable(g') && !g'.phase.Atomic?
            && (Rank(g'.phase) == (Rank(g.phase) + 1) % 8 || (g'.phase == g.phase && SweepLeft(g') < SweepLeft(g)))
  {
    hide SweepList;
  }

  lemma MarkingAdvances(g: State)
    requires Sweepable(g) && (g.phase.Pause? || g.phase.Propagate? || g.phase.EnterAtomic?)
    ensures var g' := SingleStep(g);
            && Sweepable(g') && !g'.phase.Atomic?
            && (|| Rank(g'.phase) == (Rank(g.phase) + 1) % 8
                || (&& g'.phase == g.phase && SweepLeft(g') == SweepLeft(g)
                    && (Whites(g') < Whites(g) || (Whites(g') == Whites(g) && |g'.gray| < |g.gray|))))
  {
    hide MarkAll, MarkObject, Marks, EnterSweep, AtomicStep;
    match g.phase
    case Pause =>
      var g0 := g.(gray := [], grayagain := []);
      var g1 := MarkObject(g0, g.mainthread);
      MarkFrame(g0, g1);
      MarkFrame(g1, MarkAll(g1, g.globals));
    case Propagate =>
      if g.gray != [] {
        PropagateFrame(g);
        hide PropagateMark;
      }
    case _ =>
  }

  lemma MarkFrame(g: State, g': State)
    requires Marks(g, g')
    ensures g' == g.(heap := g'.heap, gray := g'.gray) && g'.heap.Keys == g.heap.Keys
  {
  }

  lemma PropagateFrame(g: State)
    requires g.gray != []
    ensures var g' := PropagateMark(g); g' == g.(heap := g'.heap, gray := g'.gray, grayagain := g'.grayagain)
  {
  }

  /** `luaC_runtilstate` */
  function RunTil(g: State, target: Phase): (r: State)
    requires Sweepable(g) && !g.phase.Atomic? && !target.Atomic?
    ensures Sweepable(r) && r.phase == target
    decreases Distance(g.phase, target), SweepLeft(g), Whites(g), |g.gray|
  {
    if g.phase == target then g
    else
      StepAdvances(g, target);
      RunTil(SingleStep(g), target)
  }

  /** `fullinc` */
  function FullInc(g: State): State
    requires Sweepable(g) && !g.phase.Atomic?
  {
    var g1 := if KeepInvariant(g) then EnterSweep(g) else g;
    var g2 := RunTil(RunTil(g1, Pause), Propagate);
    RunTil(RunTil(g2.(phase := EnterAtomic), CallFin), Pause)
  }

  /** One step sweeps a hundred objects, or what is left. */
  lemma HundredSwept(g: State, n: nat)
    requires g.phase.SwpAllgc? && Sweepable(g) && g.sweep == Some(n)
    ensures SingleStep(g).sweep == if n <= 100 then None else Some(n - 100)
  {
    hide SweepOne;
    SweptMany(g, n, 100);
  }

  lemma {:induction false} SweptMany(g: State, n: nat, m: nat)
    requires Sweepable(g) && g.sweep == Some(n)
    ensures SweepList(g, m).sweep == if n <= m then None else Some(n - m)
    decreases m
  {
    if n > 0 && m > 0 { SweptMany(SweepOne(g), n - 1, m - 1); }
  }

  // ----- barriers -----

  /** `luaC_objbarrier` with `luaC_barrier_` */
  function Barrier(g: State, o: Obj, v: Obj): State {
    if o in g.heap && g.heap[o].mark.Black? && IsWhite(g, v) then
      if KeepInvariant(g) then MarkObject(g, v) else SetMark(g, o, White(g.white))
    else g
  }

  /** `luaC_objbarrierback` with `luaC_barrierback_` */
  function BarrierBack(g: State, o: Obj, v: Obj): State {
    if o in g.heap && g.heap[o].mark.Black? && IsWhite(g, v)
    then SetMark(g, o, Gray).(grayagain := [o] + g.grayagain)
    else g
  }

  // ----- the program -----

  /** `luaC_newobj`, with the new object pushed on the stack of the running thread. */
  function NewObject(g: State, kind: Kind): State {
    var o := g.born;
    var g1 := g.(heap := g.heap[o := Cell(kind, [], White(g.white))], allgc := [o] + g.allgc, born := o + 1);
    SetRefs(g1, g.running, RefsOf(g1, g.running) + [o])
  }

  /** A reference to `v` stored in `o`, followed by the barrier the place of the store asks for. */
  function Store(g: State, o: Obj, v: Obj, back: bool): State {
    var g1 := SetRefs(g, o, RefsOf(g, o) + [v]);
    if back then BarrierBack(g1, o, v) else Barrier(g1, o, v)
  }

  /** `internshrstr` finds a string that may already be dead, and resurrects it. */
  function Reintern(g: State, s: Obj): State {
    var g1 := if IsDead(g, s) then SetMark(g, s, White(g.white)) else g;
    SetRefs(g1, g.running, RefsOf(g1, g.running) + [s])
  }

  /** `fullinc` on a cycle that is still marking: sweep everything back to white and start again. */
  function Abandon(g: State): State {
    if KeepInvariant(g) then EnterSweep(g) else g
  }
}
