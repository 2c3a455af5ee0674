/** Marking through ephemeron tables, whose entries keep their values alive only while their keys are. */
module Ephemeron {
  type Obj = nat

  /** A value in a table: a reference to an object, or something that is not collectable. */
  datatype Val = Plain | Ref(obj: Obj)

  datatype Entry = Empty | Entry(key: Val, val: Val)

  /** What marking sees of an object: a string; an object visited as soon as it is marked; an object that waits in
      the gray list to be visited; or a table with weak keys. */
  datatype Node =
    | Str
    | Now(refs: seq<Obj>)
    | Later(refs: seq<Obj>)
    | Table(meta: seq<Obj>, slots: seq<Val>, entries: seq<Entry>)

  type Heap = map<Obj, Node>

  ghost predicate Known(heap: Heap, v: Val) {
    v.Ref? ==> v.obj in heap
  }

  /** References stay inside the heap. */
  ghost predicate WellFormed(heap: Heap) {
    forall o :: o in heap ==>
      match heap[o]
      case Str => true
      case Now(refs) => forall r :: r in refs ==> r in heap
      case Later(refs) => forall r :: r in refs ==> r in heap
      case Table(meta, slots, entries) =>
        && (forall r :: r in meta ==> r in heap) && (forall v :: v in slots ==> Known(heap, v))
        && (forall e :: e in entries && e.Entry? ==> Known(heap, e.key) && Known(heap, e.val))
  }

  predicate IsStr(heap: Heap, v: Val) {
    v.Ref? && v.obj in heap && heap[v.obj].Str?
  }

  /** A value that is not collectable counts as marked. */
  predicate In(s: set<Obj>, v: Val) {
    v.Ref? ==> v.obj in s
  }

  // ----- the specification: the least closed set -----

  /** A string used as a key is kept; a value is kept when its key is. */
  ghost predicate EntryClosed(heap: Heap, s: set<Obj>, e: Entry) {
    e.Entry? ==> (IsStr(heap, e.key) ==> e.key.obj in s) && (In(s, e.key) ==> In(s, e.val))
  }

  ghost predicate ClosedAt(heap: Heap, s: set<Obj>, o: Obj) {
    o in heap ==>
      match heap[o]
      case Str => true
      case Now(refs) => forall r :: r in refs ==> r in s
      case Later(refs) => forall r :: r in refs ==> r in s
      case Table(meta, slots, entries) =>
        && (forall r :: r in meta ==> r in s) && (forall v :: v in slots ==> In(s, v))
        && (forall e :: e in entries ==> EntryClosed(heap, s, e))
  }

  ghost predicate Closed(heap: Heap, s: set<Obj>) {
    forall o :: o in s ==> ClosedAt(heap, s, o)
  }

  /** Every closed set that holds `s` holds `s'`. */
  ghost predicate Forced(heap: Heap, s: set<Obj>, s': set<Obj>) {
    forall t: set<Obj> :: Closed(heap, t) && s <= t ==> s' <= t
  }

  /** `least` is the least closed set that holds `s`. */
  ghost predicate IsClosure(heap: Heap, s: set<Obj>, least: set<Obj>) {
    s <= least && Closed(heap, least) && Forced(heap, s, least)
  }

  /** So the result depends on nothing but the heap and the initial marks, and not on any order of visits. */
  lemma ClosureUnique(heap: Heap, s: set<Obj>, a: set<Obj>, b: set<Obj>)
    requires IsClosure(heap, s, a) && IsClosure(heap, s, b)
    ensures a == b
  {
    assert a <= b && b <= a;
  }

  lemma ForcedSame(heap: Heap, s: set<Obj>)
    ensures Forced(heap, s, s)
  {
  }

  lemma ForcedTrans(heap: Heap, a: set<Obj>, b: set<Obj>, c: set<Obj>)
    requires Forced(heap, a, b) && Forced(heap, b, c)
    ensures Forced(heap, a, c)
  {
    forall t: set<Obj> | Closed(heap, t) && a <= t ensures c <= t {
      assert b <= t;
    }
  }

  /** What a marked object that is closed under its references forces, it forces one at a time. */
  lemma ForcedOne(heap: Heap, s: set<Obj>, o: Obj, r: Obj)
    requires o in s && o in heap && forall t: set<Obj> :: s <= t && ClosedAt(heap, t, o) ==> r in t
    ensures Forced(heap, s, s + {r})
  {
    forall t: set<Obj> | Closed(heap, t) && s <= t ensures s + {r} <= t {
      assert ClosedAt(heap, t, o);
    }
  }

  // ----- how far the marking has come -----

  ghost predicate Visited(heap: Heap, s: set<Obj>, o: Obj) {
    o in heap ==>
      match heap[o]
      case Str => true
      case Now(refs) => forall r :: r in refs ==> r in s
      case Later(refs) => forall r :: r in refs ==> r in s
      case Table(meta, slots, entries) =>
        && (forall r :: r in meta ==> r in s) && (forall v :: v in slots ==> In(s, v))
        && (forall e :: e in entries && e.Entry? && IsStr(heap, e.key) ==> e.key.obj in s)
  }

  ghost predicate ValuesMarked(heap: Heap, s: set<Obj>, o: Obj) {
    o in heap && heap[o].Table? ==> forall e :: e in heap[o].entries && e.Entry? ==> In(s, e.val)
  }

  ghost predicate KeysMarked(heap: Heap, s: set<Obj>, o: Obj) {
    o in heap && heap[o].Table? ==> forall e :: e in heap[o].entries && e.Entry? ==> In(s, e.key)
  }

  lemma VisitedGrows(heap: Heap, s: set<Obj>, s': set<Obj>, o: Obj)
    requires s <= s'
    ensures Visited(heap, s, o) ==> Visited(heap, s', o)
    ensures ValuesMarked(heap, s, o) ==> ValuesMarked(heap, s', o)
    ensures KeysMarked(heap, s, o) ==> KeysMarked(heap, s', o)
  {
  }

  lemma VisitedClosed(heap: Heap, s: set<Obj>, o: Obj)
    requires Visited(heap, s, o) && ValuesMarked(heap, s, o)
    ensures ClosedAt(heap, s, o)
  {
  }

  /** A marked object that has been visited: a table with an unmarked value is in `waiting`, and one with an unmarked
      key is there or in the list of tables to be cleared. */
  ghost predicate Settled(heap: Heap, s: set<Obj>, waiting: seq<Obj>, allweak: seq<Obj>, o: Obj) {
    && Visited(heap, s, o)
    && (o in waiting || ValuesMarked(heap, s, o))
    && (o in waiting || o in allweak || KeysMarked(heap, s, o))
  }

  /** Every marked object is in the gray list, is being visited, or has been visited. */
  ghost predicate Inv(heap: Heap, s: set<Obj>, gray: seq<Obj>, waiting: seq<Obj>, allweak: seq<Obj>, busy: set<Obj>) {
    && WellFormed(heap) && s <= heap.Keys
    && (forall o :: o in gray ==> o in s && (heap[o].Later? || heap[o].Table?))
    && (forall o :: o in waiting ==> o in s && heap[o].Table?)
    && (forall o :: o in busy ==> o in s)
    && (forall o :: o in s ==> o in gray || o in busy || Settled(heap, s, waiting, allweak, o))
  }

  lemma InvGrows(heap: Heap, s: set<Obj>, gray: seq<Obj>, waiting: seq<Obj>, allweak: seq<Obj>, busy: set<Obj>, x: Obj)
    requires Inv(heap, s, gray, waiting, allweak, busy) && x in heap
    ensures Inv(heap, s + {x}, gray, waiting, allweak, busy + {x})
  {
    forall o | o in s + {x} ensures o in gray || o in busy + {x} || Settled(heap, s + {x}, waiting, allweak, o) {
      VisitedGrows(heap, s, s + {x}, o);
    }
  }

  /** A visited object is no longer busy. */
  lemma NotBusy(heap: Heap, s: set<Obj>, gray: seq<Obj>, waiting: seq<Obj>, allweak: seq<Obj>, busy: set<Obj>, x: Obj)
    requires Inv(heap, s, gray, waiting, allweak, busy + {x}) && Settled(heap, s, waiting, allweak, x)
    ensures Inv(heap, s, gray, waiting, allweak, busy)
  {
  }

  lemma PushedGray(heap: Heap, s: set<Obj>, gray: seq<Obj>, waiting: seq<Obj>, allweak: seq<Obj>, busy: set<Obj>, x: Obj)
    requires Inv(heap, s, gray, waiting, allweak, busy + {x}) && (heap[x].Later? || heap[x].Table?)
    ensures Inv(heap, s, [x] + gray, waiting, allweak, busy)
  {
  }

  lemma PoppedGray(heap: Heap, s: set<Obj>, gray: seq<Obj>, waiting: seq<Obj>, allweak: seq<Obj>)
    requires Inv(heap, s, gray, waiting, allweak, {}) && gray != []
    ensures Inv(heap, s, gray[1..], waiting, allweak, {gray[0]})
  {
    assert forall x :: x in gray ==> x == gray[0] || x in gray[1..];
  }

  /** What the flags of a traversal say about an entry that it has passed. */
  ghost predicate EntryDone(heap: Heap, s: set<Obj>, e: Entry, some: bool, clears: bool, ww: bool) {
    && (e.Entry? && IsStr(heap, e.key) ==> e.key.obj in s)
    && (!some ==> EntryClosed(heap, s, e))
    && (e.Entry? ==> (ww || In(s, e.val)) && (clears || In(s, e.key)))
  }

  /** Passing another entry does not undo it. */
  lemma StillDone(heap: Heap, s: set<Obj>, s': set<Obj>, e: Entry, other: Entry, some: bool, clears: bool, ww: bool,
                  s2: bool, c2: bool, w2: bool)
    requires EntryDone(heap, s, e, some, clears, ww) && s <= s'
    requires !s2 ==> s' == if other.Entry? && IsStr(heap, other.key) then s + {other.key.obj} else s
    ensures EntryDone(heap, s', e, some || s2, clears || c2, ww || w2)
  {
  }

  /** What the flags say about the first `i` entries, or the last ones when the table is traversed backwards. */
  ghost predicate PassedDone(heap: Heap, s: set<Obj>, entries: seq<Entry>, i: nat, inv: bool, some: bool, clears: bool, ww: bool) {
    forall j :: 0 <= j < |entries| && (if inv then j >= |entries| - i else j < i) ==>
                  EntryDone(heap, s, entries[j], some, clears, ww)
  }

  lemma PassOne(heap: Heap, s: set<Obj>, s': set<Obj>, entries: seq<Entry>, i: nat, inv: bool, some: bool, clears: bool,
                ww: bool, s2: bool, c2: bool, w2: bool)
    requires i < |entries| && PassedDone(heap, s, entries, i, inv, some, clears, ww) && s <= s'
    requires var e := entries[if inv then |entries| - 1 - i else i];
             && (!s2 ==> s' == if e.Entry? && IsStr(heap, e.key) then s + {e.key.obj} else s)
             && EntryDone(heap, s', e, s2, c2, w2)
    ensures PassedDone(heap, s', entries, i + 1, inv, some || s2, clears || c2, ww || w2)
  {
    var at := if inv then |entries| - 1 - i else i;
    forall j | 0 <= j < |entries| && (if inv then j >= |entries| - (i + 1) else j < i + 1)
      ensures EntryDone(heap, s', entries[j], some || s2, clears || c2, ww || w2)
    {
      if j != at { StillDone(heap, s, s', entries[j], entries[at], some, clears, ww, s2, c2, w2); }
    }
  }

  lemma AllPassed(heap: Heap, s: set<Obj>, h: Obj, inv: bool, some: bool, clears: bool, ww: bool)
    requires h in heap && heap[h].Table? && PassedDone(heap, s, heap[h].entries, |heap[h].entries|, inv, some, clears, ww)
    ensures forall e :: e in heap[h].entries && e.Entry? && IsStr(heap, e.key) ==> e.key.obj in s
    ensures !some ==> forall e :: e in heap[h].entries ==> EntryClosed(heap, s, e)
    ensures ww || ValuesMarked(heap, s, h)
    ensures clears || KeysMarked(heap, s, h)
  {
  }

  /** A traversed table is linked into the list its entries ask for. */
  lemma Linked(heap: Heap, s: set<Obj>, gray: seq<Obj>, waiting: seq<Obj>, allweak: seq<Obj>,
               waiting': seq<Obj>, allweak': seq<Obj>, h: Obj)
    requires Inv(heap, s, gray, waiting, allweak, {h}) && h in heap && heap[h].Table? && Visited(heap, s, h)
    requires forall o :: o in waiting' <==> o in waiting || (o == h && h in waiting')
    requires forall o :: o in allweak ==> o in allweak'
    requires h in waiting' || ValuesMarked(heap, s, h)
    requires h in waiting' || h in allweak' || KeysMarked(heap, s, h)
    ensures Inv(heap, s, gray, waiting', allweak', {})
  {
  }

  /** The first table of what is left of the list is being visited again. */
  lemma Unlinked(heap: Heap, s: set<Obj>, ephemeron: seq<Obj>, next: seq<Obj>, allweak: seq<Obj>)
    requires Inv(heap, s, [], ephemeron + next, allweak, {}) && next != []
    ensures Inv(heap, s, [], ephemeron + next[1..], allweak, {next[0]}) && Visited(heap, s, next[0]) && heap[next[0]].Table?
  {
    assert next[0] in ephemeron + next;
    assert forall o :: o in ephemeron + next ==> o == next[0] || o in ephemeron + next[1..];
  }

  /** An entry whose key is not marked. */
  ghost predicate WhiteKey(marked: set<Obj>, e: Entry) {
    e.Entry? && !In(marked, e.key)
  }

  ghost predicate HasWhiteKey(heap: Heap, marked: set<Obj>, h: Obj) {
    h in heap && heap[h].Table? && exists e :: e in heap[h].entries && WhiteKey(marked, e)
  }

  /** The table has an entry with neither its key nor its value marked. */
  ghost predicate HasWhiteWhite(heap: Heap, marked: set<Obj>, h: Obj) {
    h in heap && heap[h].Table? && exists e :: e in heap[h].entries && WhiteKey(marked, e) && !In(marked, e.val)
  }

  lemma WhiteBefore(heap: Heap, before: set<Obj>, was: set<Obj>, h: Obj, e: Entry, clears: bool, ww: bool)
    requires h in heap && heap[h].Table? && e in heap[h].entries && before <= was
    requires (clears ==> WhiteKey(was, e)) && (ww ==> WhiteKey(was, e) && !In(was, e.val))
    ensures (clears ==> HasWhiteKey(heap, before, h)) && (ww ==> HasWhiteWhite(heap, before, h))
  {
    assert clears ==> WhiteKey(before, e);
    assert ww ==> WhiteKey(before, e) && !In(before, e.val);
  }

  lemma WhiterBefore(heap: Heap, before: set<Obj>, was: set<Obj>, h: Obj)
    requires before <= was
    ensures HasWhiteKey(heap, was, h) ==> HasWhiteKey(heap, before, h)
    ensures HasWhiteWhite(heap, was, h) ==> HasWhiteWhite(heap, before, h)
  {
    if HasWhiteWhite(heap, was, h) {
      var e :| e in heap[h].entries && WhiteKey(was, e) && !In(was, e.val);
      WhiteBefore(heap, before, was, h, e, true, true);
    }
    if HasWhiteKey(heap, was, h) {
      var e :| e in heap[h].entries && WhiteKey(was, e);
      WhiteBefore(heap, before, was, h, e, true, false);
    }
  }

  class Marker {
    const heap: Heap
    var marked: set<Obj>
    var gray: seq<Obj>
    var ephemeron: seq<Obj>
    var allweak: seq<Obj>

    /** The invariant, while `busy` is being visited and `pending` is what is left of the ephemeron list of this turn. */
    ghost predicate Valid(busy: set<Obj>, pending: seq<Obj>)
      reads this
    {
      Inv(heap, marked, gray, ephemeron + pending, allweak, busy)
    }

    ghost function Unmarked(): set<Obj>
      reads this
    {
      heap.Keys - marked
    }

    /** `reallymarkobject` */
    method ReallyMark(o: Obj, ghost busy: set<Obj>, ghost pending: seq<Obj>)
      requires Valid(busy, pending) && o in heap && o !in marked
      modifies this`marked, this`gray
      ensures Valid(busy, pending) && old(marked) + {o} <= marked && Forced(heap, old(marked) + {o}, marked)
      ensures heap[o].Str? ==> marked == old(marked) + {o} && gray == old(gray)
      decreases Unmarked(), 0
    {
      InvGrows(heap, marked, gray, ephemeron + pending, allweak, busy, o);
      marked := marked + {o};
      assert Unmarked() < old(Unmarked());
      match heap[o]
      case Str =>
        NotBusy(heap, marked, gray, ephemeron + pending, allweak, busy, o);
      case Now(refs) =>
        MarkAll(o, refs, busy + {o}, pending);
        NotBusy(heap, marked, gray, ephemeron + pending, allweak, busy, o);
      case _ =>
        PushedGray(heap, marked, gray, ephemeron + pending, allweak, busy, o);
        gray := [o] + gray;
    }

    /** The references of `o`, marked one by one. */
    method MarkAll(o: Obj, rs: seq<Obj>, ghost busy: set<Obj>, ghost pending: seq<Obj>)
      requires Valid(busy, pending) && o in marked
      requires forall t: set<Obj>, r :: ClosedAt(heap, t, o) && r in rs ==> r in t
      requires forall r :: r in rs ==> r in heap
      modifies this`marked, this`gray
      ensures Valid(busy, pending) && old(marked) <= marked && Forced(heap, old(marked), marked)
      ensures forall r :: r in rs ==> r in marked
      ensures marked == old(marked) ==> gray == old(gray)
      decreases Unmarked(), 1
    {
      hide Forced, ClosedAt;
      ForcedSame(heap, marked);
      var i := 0;
      while i < |rs|
        invariant 0 <= i <= |rs| && Valid(busy, pending)
        invariant old(marked) <= marked && Forced(heap, old(marked), marked)
        invariant forall r :: r in rs[..i] ==> r in marked
        invariant marked == old(marked) ==> gray == old(gray)
      {
        if rs[i] !in marked {
          ghost var was := marked;
          ForcedOne(heap, marked, o, rs[i]);
          ReallyMark(rs[i], busy, pending);
          ForcedTrans(heap, was, was + {rs[i]}, marked);
          ForcedTrans(heap, old(marked), was, marked);
        }
        i := i + 1;
      }
    }

    /** `valiswhite` and a mark. */
    method MarkValue(h: Obj, v: Val, ghost busy: set<Obj>, ghost pending: seq<Obj>) returns (white: bool)
      requires Valid(busy, pending) && h in marked && Known(heap, v)
      requires forall t: set<Obj> :: marked <= t && ClosedAt(heap, t, h) ==> In(t, v)
      modifies this`marked, this`gray
      ensures Valid(busy, pending) && old(marked) <= marked && Forced(heap, old(marked), marked) && In(marked, v)
      ensures white ==> old(marked) < marked
      ensures !white ==> marked == old(marked) && gray == old(gray)
    {
      white := v.Ref? && v.obj !in marked;
      if white {
        ghost var was := marked;
        ForcedOne(heap, marked, h, v.obj);
        ReallyMark(v.obj, busy, pending);
        ForcedTrans(heap, was, was + {v.obj}, marked);
      }
    }

    /** `iscleared` on the key of an entry: strings are marked, and never cleared. */
    method IsCleared(h: Obj, k: Val, ghost busy: set<Obj>, ghost pending: seq<Obj>) returns (cleared: bool)
      requires Valid(busy, pending) && h in marked && Known(heap, k)
      requires IsStr(heap, k) ==> forall t: set<Obj> :: marked <= t && ClosedAt(heap, t, h) ==> k.obj in t
      modifies this`marked, this`gray
      ensures Valid(busy, pending) && old(marked) <= marked && Forced(heap, old(marked), marked) && gray == old(gray)
      ensures marked == if IsStr(heap, k) then old(marked) + {k.obj} else old(marked)
      ensures cleared <==> !In(marked, k)
    {
      if k.Plain? {
        cleared := false;
      } else if heap[k.obj].Str? {
        if k.obj !in marked {
          ForcedOne(heap, marked, h, k.obj);
          ReallyMark(k.obj, busy, pending);
        }
        cleared := false;
      } else {
        cleared := k.obj !in marked;
      }
    }

    /** The array part of an ephemeron table. */
    method TraverseArray(h: Obj, ghost pending: seq<Obj>) returns (some: bool)
      requires Valid({h}, pending) && heap[h].Table?
      modifies this`marked, this`gray
      ensures Valid({h}, pending) && old(marked) <= marked && Forced(heap, old(marked), marked)
      ensures forall v :: v in heap[h].slots ==> In(marked, v)
      ensures if some then old(marked) < marked else marked == old(marked) && gray == old(gray)
    {
      some := false;
      var slots := heap[h].slots;
      var i := 0;
      while i < |slots|
        invariant 0 <= i <= |slots| && Valid({h}, pending)
        invariant old(marked) <= marked && Forced(heap, old(marked), marked)
        invariant forall j :: 0 <= j < i ==> In(marked, slots[j])
        invariant if some then old(marked) < marked else marked == old(marked) && gray == old(gray)
      {
        ghost var was := marked;
        var white := MarkValue(h, slots[i], {h}, pending);
        ForcedTrans(heap, old(marked), was, marked);
        some := some || white;
        i := i + 1;
      }
    }

    /** One entry: a value is marked when its key is. */
    method TraverseEntry(h: Obj, e: Entry, ghost pending: seq<Obj>) returns (some: bool, clears: bool, ww: bool)
      requires Valid({h}, pending) && heap[h].Table? && e in heap[h].entries
      modifies this`marked, this`gray
      ensures Valid({h}, pending) && old(marked) <= marked && Forced(heap, old(marked), marked)
      ensures some ==> old(marked) < marked
      ensures !some ==> gray == old(gray) && EntryClosed(heap, marked, e)
      ensures !some ==> marked == if e.Entry? && IsStr(heap, e.key) then old(marked) + {e.key.obj} else old(marked)
      ensures e.Entry? && IsStr(heap, e.key) ==> e.key.obj in marked
      ensures e.Entry? ==> (ww || In(marked, e.val)) && (clears || In(marked, e.key))
      ensures clears ==> WhiteKey(old(marked), e)
      ensures ww ==> WhiteKey(old(marked), e) && !In(old(marked), e.val)
    {
      some, clears, ww := false, false, false;
      if e.Entry? {
        var cleared := IsCleared(h, e.key, {h}, pending);
        if cleared {
          clears := true;
          ww := e.val.Ref? && e.val.obj !in marked;
        } else {
          ghost var was := marked;
          some := MarkValue(h, e.val, {h}, pending);
          ForcedTrans(heap, old(marked), was, marked);
        }
      }
    }

    /** The entries, upwards or downwards. */
    method TraverseNodes(h: Obj, inv: bool, ghost pending: seq<Obj>) returns (some: bool, hasclears: bool, hasww: bool)
      requires Valid({h}, pending) && heap[h].Table?
      modifies this`marked, this`gray
      ensures Valid({h}, pending) && old(marked) <= marked && Forced(heap, old(marked), marked)
      ensures some ==> old(marked) < marked
      ensures !some ==> gray == old(gray) && forall e :: e in heap[h].entries ==> EntryClosed(heap, marked, e)
      ensures !some && old(Visited(heap, marked, h)) ==> marked == old(marked)
      ensures forall e :: e in heap[h].entries && e.Entry? && IsStr(heap, e.key) ==> e.key.obj in marked
      ensures hasww || ValuesMarked(heap, marked, h)
      ensures hasclears || KeysMarked(heap, marked, h)
      ensures hasclears ==> HasWhiteKey(heap, old(marked), h)
      ensures hasww ==> HasWhiteWhite(heap, old(marked), h)
    {
      hide HasWhiteKey, HasWhiteWhite, WhiteKey, EntryClosed, ValuesMarked, KeysMarked, Forced;
      ForcedSame(heap, marked);
      some, hasclears, hasww := false, false, false;
      var entries := heap[h].entries;
      var n := |entries|;
      var i := 0;
      while i < n
        invariant 0 <= i <= n && Valid({h}, pending)
        invariant old(marked) <= marked && Forced(heap, old(marked), marked)
        invariant if some then old(marked) < marked else gray == old(gray)
        invariant !some && old(Visited(heap, marked, h)) ==> marked == old(marked)
        invariant PassedDone(heap, marked, entries, i, inv, some, hasclears, hasww)
        invariant hasclears ==> HasWhiteKey(heap, old(marked), h)
        invariant hasww ==> HasWhiteWhite(heap, old(marked), h)
      {
        var at := if inv then n - 1 - i else i;
        ghost var was := marked;
        var s, c, w := TraverseEntry(h, entries[at], pending);
        ForcedTrans(heap, old(marked), was, marked);
        WhiteBefore(heap, old(marked), was, h, entries[at], c, w);
        PassOne(heap, was, marked, entries, i, inv, some, hasclears, hasww, s, c, w);
        some, hasclears, hasww := some || s, hasclears || c, hasww || w;
        i := i + 1;
      }
      AllPassed(heap, marked, h, inv, some, hasclears, hasww);
    }

    /** `traverseephemeron` in the atomic phase. It returns whether it marked a value; a string marked as a key does
        not count. */
    method TraverseEphemeron(h: Obj, inv: bool, ghost pending: seq<Obj>) returns (some: bool)
      requires Valid({h}, pending) && heap[h].Table? && forall r :: r in heap[h].meta ==> r in marked
      modifies this`marked, this`gray, this`ephemeron, this`allweak
      ensures Valid({}, pending) && old(marked) <= marked && Forced(heap, old(marked), marked)
      ensures some ==> old(marked) < marked
      ensures !some ==> gray == old(gray) && ClosedAt(heap, marked, h)
      ensures !some && old(Visited(heap, marked, h)) ==> marked == old(marked)
      ensures ephemeron == old(ephemeron) || (ephemeron == [h] + old(ephemeron) && HasWhiteWhite(heap, old(marked), h))
      ensures allweak == old(allweak) || (allweak == [h] + old(allweak) && HasWhiteKey(heap, old(marked), h))
      ensures ephemeron == old(ephemeron) || allweak == old(allweak)
    {
      hide HasWhiteKey, HasWhiteWhite, EntryClosed, ValuesMarked, KeysMarked, Forced;
      some := TraverseArray(h, pending);
      ghost var was := marked;
      var s, hasclears, hasww := TraverseNodes(h, inv, pending);
      ForcedTrans(heap, old(marked), was, marked);
      WhiterBefore(heap, old(marked), was, h);
      some := some || s;
      if hasww {
        ephemeron := [h] + ephemeron;
        assert ephemeron + pending == [h] + (old(ephemeron) + pending);
      } else if hasclears {
        allweak := [h] + allweak;
      }
      Linked(heap, marked, gray, old(ephemeron) + pending, old(allweak), ephemeron + pending, allweak, h);
    }

    /** What `propagatemark` does to an object taken from the gray list. */
    method PropagateMark(o: Obj, ghost pending: seq<Obj>)
      requires Valid({o}, pending) && (heap[o].Later? || heap[o].Table?)
      modifies this`marked, this`gray, this`ephemeron, this`allweak
      ensures Valid({}, pending) && old(marked) <= marked && Forced(heap, old(marked), marked)
      ensures marked == old(marked) ==> gray == old(gray)
    {
      match heap[o] {
        case Later(refs) =>
          MarkAll(o, refs, {o}, pending);
          NotBusy(heap, marked, gray, ephemeron + pending, allweak, {}, o);
        case Table(meta, _, _) =>
          MarkAll(o, meta, {o}, pending);
          ghost var was := marked;
          var _ := TraverseEphemeron(o, false, pending);
          ForcedTrans(heap, old(marked), was, marked);
      }
    }

    /** `propagateall` */
    method PropagateAll(ghost pending: seq<Obj>)
      requires Valid({}, pending)
      modifies this`marked, this`gray, this`ephemeron, this`allweak
      ensures Valid({}, pending) && gray == [] && old(marked) <= marked && Forced(heap, old(marked), marked)
    {
      hide Forced;
      ForcedSame(heap, marked);
      while gray != []
        invariant Valid({}, pending) && old(marked) <= marked && Forced(heap, old(marked), marked)
        decreases Unmarked(), |gray|
      {
        PoppedGray(heap, marked, gray, ephemeron + pending, allweak);
        var o := gray[0];
        gray := gray[1..];
        ghost var was := marked;
        PropagateMark(o, pending);
        ForcedTrans(heap, old(marked), was, marked);
      }
    }

    /** `convergeephemerons`: when it returns, the marked objects are the least closed set that holds those marked
        before, whatever the directions of the traversals; and every table with a key left unmarked is in one of the
        two lists that are cleared next. */
    method ConvergeEphemerons()
      requires Valid({}, []) && gray == []
      modifies this`marked, this`gray, this`ephemeron, this`allweak
      ensures Valid({}, []) && gray == []
      ensures IsClosure(heap, old(marked), marked)
      ensures forall o :: o in marked ==> o in ephemeron || o in allweak || KeysMarked(heap, marked, o)
    {
      var dir := false;
      var changed := true;
      while changed
        invariant Valid({}, []) && gray == [] && old(marked) <= marked && Forced(heap, old(marked), marked)
        invariant !changed ==> Closed(heap, marked)
        decreases Unmarked(), changed
      {
        changed := false;
        changed := OneTurn(dir);
        dir := !dir;
      }
      assert ephemeron + [] == ephemeron;
    }

    /** One turn of the loop: every table of the ephemeron list is traversed, and the list is built again. */
    method OneTurn(dir: bool) returns (changed: bool)
      requires Valid({}, []) && gray == []
      modifies this`marked, this`gray, this`ephemeron, this`allweak
      ensures Valid({}, []) && gray == [] && old(marked) <= marked && Forced(heap, old(marked), marked)
      ensures if changed then old(marked) < marked else Closed(heap, marked)
    {
      var next := ephemeron;
      ephemeron := [];
      changed := false;
      assert [] + next == next + [];
      while next != []
        invariant Valid({}, next) && gray == [] && old(marked) <= marked && Forced(heap, old(marked), marked)
        invariant changed ==> old(marked) < marked
        invariant !changed ==> forall o :: o in ephemeron ==> ClosedAt(heap, marked, o)
        invariant !changed ==> marked == old(marked)
        decreases |next|
      {
        var h := next[0];
        ghost var was := marked;
        Unlinked(heap, marked, ephemeron, next, allweak);
        next := next[1..];
        var some := TraverseEphemeron(h, dir, next);
        ForcedTrans(heap, old(marked), was, marked);
        if some {
          ghost var then_ := marked;
          PropagateAll(next);
          ForcedTrans(heap, old(marked), then_, marked);
          changed := true;
        }
      }
      if !changed {
        forall o | o in marked ensures ClosedAt(heap, marked, o) {
          if o !in ephemeron {
            VisitedClosed(heap, marked, o);
          }
        }
      }
    }

    /** Marking from a set of roots, ephemeron tables included. */
    method MarkFrom(roots: seq<Obj>)
      requires WellFormed(heap) && (forall r :: r in roots ==> r in heap)
      requires marked == {} && gray == [] && ephemeron == []
      modifies this`marked, this`gray, this`ephemeron, this`allweak
      ensures IsClosure(heap, (set r | r in roots), marked)
    {
      ghost var s := set r | r in roots;
      var i := 0;
      while i < |roots|
        invariant 0 <= i <= |roots| && Valid({}, []) && Forced(heap, s, marked)
        invariant forall r :: r in roots[..i] ==> r in marked
      {
        if roots[i] !in marked {
          ghost var was := marked;
          ReallyMark(roots[i], {}, []);
          forall t: set<Obj> | Closed(heap, t) && s <= t ensures marked <= t {
            assert roots[i] in s && was + {roots[i]} <= t;
          }
        }
        i := i + 1;
      }
      ghost var a := marked;
      PropagateAll([]);
      ghost var b := marked;
      ConvergeEphemerons();
      ForcedTrans(heap, s, a, b);
      ForcedTrans(heap, s, b, marked);
    }
  }
}
