/** The open upvalues of a thread (lfunc.c) and how they live through stack reallocation (ldo.c). */
module OpenUpvalues {
  /** An upvalue object; 0 is NULL. */
  type Ref = int

  /** A Lua value; nil is 0. */
  type Value = int

  /** Where the value of an upvalue is: at an address in the stack, in the upvalue itself, or, while the stack is being
      moved, at an offset from its base. */
  datatype Place = Stack(p: int) | Own | Offset(off: int)

  /** The pointer that points to an upvalue: the head of the list, or the `next` field of another. */
  datatype Slot = Head | NextOf(uv: Ref)

  datatype Body = Open(next: Ref, previous: Slot) | Closed(value: Value)

  datatype UpVal = UpVal(v: Place, u: Body)

  type Heap = map<Ref, UpVal>

  const EXTRA_STACK := 5

  function NextAt(list: seq<Ref>, k: nat): Ref
    requires k < |list|
  {
    if k + 1 < |list| then list[k + 1] else 0
  }

  function PrevAt(list: seq<Ref>, k: nat): Slot
    requires k < |list|
  {
    if k == 0 then Head else NextOf(list[k - 1])
  }

  /** The links in both directions are those of the list. */
  ghost predicate Node(uvs: Heap, list: seq<Ref>, k: nat)
    requires k < |list|
  {
    list[k] != 0 && list[k] in uvs && uvs[list[k]].u == Open(NextAt(list, k), PrevAt(list, k))
  }

  ghost predicate Links(uvs: Heap, head: Ref, list: seq<Ref>) {
    && head == (if list == [] then 0 else list[0])
    && (forall k :: 0 <= k < |list| ==> Node(uvs, list, k))
    && (forall i, j :: 0 <= i < j < |list| ==> list[i] != list[j])
    && (forall uv :: uv in uvs && uvs[uv].u.Open? ==> uv in list)
  }

  ghost predicate LevelIn(uvs: Heap, uv: Ref, base: int, size: int) {
    uv in uvs && uvs[uv].v.Stack? && base <= uvs[uv].v.p < base + size
  }

  /** Strictly descending levels, all of them in the stack; a closed upvalue has its own value. */
  ghost predicate Levels(uvs: Heap, list: seq<Ref>, base: int, size: int) {
    && (forall k :: 0 <= k < |list| ==> LevelIn(uvs, list[k], base, size))
    && (forall i, j :: 0 <= i < j < |list| ==> uvs[list[i]].v.p > uvs[list[j]].v.p)
    && (forall uv :: uv in uvs && uvs[uv].u.Closed? ==> uvs[uv].v.Own?)
  }

  lemma Listed(uvs: Heap, head: Ref, list: seq<Ref>)
    requires Links(uvs, head, list)
    ensures forall x :: x in list ==> x in uvs
  {
    forall x | x in list ensures x in uvs {
      var k :| 0 <= k < |list| && list[k] == x;
      assert Node(uvs, list, k);
    }
  }

  /** The levels of the first `k` are above `level`, those of the others below. */
  ghost predicate Around(uvs: Heap, list: seq<Ref>, base: int, size: int, level: int, k: nat) {
    forall i :: 0 <= i < |list| ==>
      LevelIn(uvs, list[i], base, size) && if i < k then uvs[list[i]].v.p > level else uvs[list[i]].v.p < level
  }

  lemma LevelsInside(uvs: Heap, list: seq<Ref>, base: int, size: int)
    requires Levels(uvs, list, base, size)
    ensures forall x :: x in list ==> LevelOf(uvs, base, x) < size
  {
    forall x | x in list ensures LevelOf(uvs, base, x) < size {
      var i :| 0 <= i < |list| && list[i] == x;
      assert LevelIn(uvs, list[i], base, size);
    }
  }

  lemma Skipped(uvs: Heap, list: seq<Ref>, base: int, size: int, level: int, k: nat)
    requires Around(uvs, list, base, size, level, k)
    ensures forall x :: x in list ==> LevelOf(uvs, base, x) != level - base
  {
    forall x | x in list ensures LevelOf(uvs, base, x) != level - base {
      var i :| 0 <= i < |list| && list[i] == x;
      assert LevelIn(uvs, list[i], base, size);
    }
  }

  /** The value read through an upvalue. */
  function ReadIn(uvs: Heap, stack: seq<Value>, base: int, uv: Ref): Value {
    if uv !in uvs then 0
    else if uvs[uv].v.Stack? then (if 0 <= uvs[uv].v.p - base < |stack| then stack[uvs[uv].v.p - base] else 0)
    else if uvs[uv].u.Closed? then uvs[uv].u.value
    else 0
  }

  /** The stack index an open upvalue stands for. */
  function LevelOf(uvs: Heap, base: int, uv: Ref): int {
    if uv in uvs && uvs[uv].v.Stack? then uvs[uv].v.p - base else -1
  }

  lemma LevelFound(uvs: Heap, base: int, stack: seq<Value>, uv: Ref, level: int)
    requires uv in uvs && uvs[uv].v == Stack(level) && base <= level < base + |stack|
    ensures LevelOf(uvs, base, uv) == level - base && ReadIn(uvs, stack, base, uv) == stack[level - base]
  {
  }

  /** What is read at a level of the stack. */
  lemma OpenReads(uvs: Heap, stack: seq<Value>, base: int, uv: Ref)
    ensures 0 <= LevelOf(uvs, base, uv) < |stack| ==> ReadIn(uvs, stack, base, uv) == stack[LevelOf(uvs, base, uv)]
  {
  }

  lemma SameReads(a: Heap, b: Heap, but: Ref, stack: seq<Value>, base: int, x: Ref)
    requires SameBut(a, b, but) && x in a && x != but
    ensures ReadIn(b, stack, base, x) == ReadIn(a, stack, base, x) && LevelOf(b, base, x) == LevelOf(a, base, x)
  {
  }

  // ----- the list -----

  /** Only links differ, apart from what happens to `uv`. */
  ghost predicate SameBut(a: Heap, b: Heap, uv: Ref) {
    && (forall x :: x in a && x != uv ==> x in b)
    && (forall x :: x in b && x != uv ==> x in a)
    && (forall x :: x in a && x != uv ==> b[x].v == a[x].v && (if a[x].u.Closed? then b[x] == a[x] else b[x].u.Open?))
  }

  lemma SameKeys(a: Heap, b: Heap, uv: Ref)
    requires SameBut(a, b, uv)
    ensures forall x :: x in b && x != uv ==> x in a
  {
  }

  /** `newupval`: a new upvalue in place `k` of the list. */
  function Linked(uvs: Heap, uv: Ref, level: int, prev: Slot, next: Ref): (r: Heap)
    requires next != 0 ==> next in uvs && uvs[next].u.Open?
    requires prev.NextOf? ==> prev.uv in uvs && uvs[prev.uv].u.Open? && prev.uv != next
    requires uv !in uvs
    ensures SameBut(uvs, r, uv) && uv in r && r[uv].v == Stack(level) && r[uv].u.Open?
  {
    var h1 := uvs[uv := UpVal(Stack(level), Open(next, prev))];
    var h2 := if next == 0 then h1 else h1[next := h1[next].(u := Open(h1[next].u.next, NextOf(uv)))];
    if prev.Head? then h2 else h2[prev.uv := h2[prev.uv].(u := Open(uv, h2[prev.uv].u.previous))]
  }

  lemma LinkedLinks(uvs: Heap, head: Ref, list: seq<Ref>, uv: Ref, level: int, k: nat)
    requires Links(uvs, head, list) && uv !in uvs && uv != 0 && k <= |list|
    ensures var prev := if k == 0 then Head else NextOf(list[k - 1]);
            var next := if k < |list| then list[k] else 0;
            && (next != 0 ==> next in uvs && uvs[next].u.Open?)
            && (prev.NextOf? ==> prev.uv in uvs && uvs[prev.uv].u.Open? && prev.uv != next)
            && Links(Linked(uvs, uv, level, prev, next), if k == 0 then uv else head, list[..k] + [uv] + list[k..])
  {
    var prev := if k == 0 then Head else NextOf(list[k - 1]);
    var next := if k < |list| then list[k] else 0;
    if k > 0 {
      assert Node(uvs, list, k - 1);
    }
    if k < |list| {
      assert Node(uvs, list, k);
    }
    var h := Linked(uvs, uv, level, prev, next);
    var out := list[..k] + [uv] + list[k..];
    forall i | 0 <= i < |list| ensures list[i] != uv {
      assert Node(uvs, list, i);
    }
    Inserted(list, uv, k);
    forall i | 0 <= i < |out| ensures Node(h, out, i) {
      if i < k {
        assert Node(uvs, list, i);
      } else if i > k {
        assert Node(uvs, list, i - 1);
      }
    }
    forall x | x in h && h[x].u.Open? ensures x in out {
      assert x == uv || (x in uvs && uvs[x].u.Open?);
    }
  }

  lemma Inserted(list: seq<Ref>, uv: Ref, k: nat)
    requires k <= |list| && (forall i, j :: 0 <= i < j < |list| ==> list[i] != list[j]) && forall i :: 0 <= i < |list| ==> list[i] != uv
    ensures var out := list[..k] + [uv] + list[k..];
            && |out| == |list| + 1
            && (forall i :: 0 <= i < |out| ==> out[i] == if i < k then list[i] else if i == k then uv else list[i - 1])
            && (forall i, j :: 0 <= i < j < |out| ==> out[i] != out[j])
            && uv in out && forall x :: x in list ==> x in out
  {
    var out := list[..k] + [uv] + list[k..];
    assert out[k] == uv;
    forall x | x in list ensures x in out {
      var i :| 0 <= i < |list| && list[i] == x;
      assert out[if i < k then i else i + 1] == x;
    }
  }

  /** `luaF_unlinkupval` on the upvalue in place `k`. */
  function Unlinked(uvs: Heap, uv: Ref): (r: Heap)
    requires uv in uvs && uvs[uv].u.Open?
    requires var prev := uvs[uv].u.previous; prev.NextOf? ==> prev.uv in uvs && uvs[prev.uv].u.Open?
    requires var next := uvs[uv].u.next; next != 0 ==> next in uvs && uvs[next].u.Open?
    requires uvs[uv].u.previous != NextOf(uvs[uv].u.next)
    ensures SameBut(uvs, r, uv) && uv in r
  {
    var prev, next := uvs[uv].u.previous, uvs[uv].u.next;
    var h1 := if prev.Head? then uvs else uvs[prev.uv := uvs[prev.uv].(u := Open(next, uvs[prev.uv].u.previous))];
    if next == 0 then h1 else h1[next := h1[next].(u := Open(h1[next].u.next, prev))]
  }

  lemma UnlinkedLinks(uvs: Heap, head: Ref, list: seq<Ref>, k: nat)
    requires Links(uvs, head, list) && k < |list|
    ensures var uv := list[k];
            && uv in uvs && uvs[uv].u == Open(NextAt(list, k), PrevAt(list, k))
            && (var prev := uvs[uv].u.previous; prev.NextOf? ==> prev.uv in uvs && uvs[prev.uv].u.Open?)
            && (var next := uvs[uv].u.next; next != 0 ==> next in uvs && uvs[next].u.Open?)
            && uvs[uv].u.previous != NextOf(uvs[uv].u.next)
  {
    assert Node(uvs, list, k);
    if k > 0 {
      assert Node(uvs, list, k - 1);
    }
    if k + 1 < |list| {
      assert Node(uvs, list, k + 1);
    }
  }

  /** The list without the upvalue in place `k`, whatever becomes of that upvalue when it is no longer open. */
  lemma UnlinkedHeap(uvs: Heap, head: Ref, list: seq<Ref>, k: nat, h': Heap)
    requires Links(uvs, head, list) && k < |list| && list[k] in uvs
    requires var uv := list[k];
             && uvs[uv].u.Open?
             && (var prev := uvs[uv].u.previous; prev.NextOf? ==> prev.uv in uvs && uvs[prev.uv].u.Open?)
             && (var next := uvs[uv].u.next; next != 0 ==> next in uvs && uvs[next].u.Open?)
             && uvs[uv].u.previous != NextOf(uvs[uv].u.next)
    requires forall x :: x in h' && x != list[k] ==> x in uvs
    requires forall x :: x in uvs && x != list[k] ==> x in h' && h'[x] == Unlinked(uvs, list[k])[x]
    requires list[k] in h' ==> h'[list[k]].u.Closed?
    ensures SameBut(uvs, h', list[k])
    ensures Links(h', if k == 0 then NextAt(list, 0) else head, list[..k] + list[k + 1..])
  {
    var uv := list[k];
    assert Node(uvs, list, k);
    var out := list[..k] + list[k + 1..];
    assert forall i :: 0 <= i < |out| ==> out[i] == if i < k then list[i] else list[i + 1];
    forall i | 0 <= i < |out| ensures Node(h', out, i) {
      var j := if i < k then i else i + 1;
      assert Node(uvs, list, j);
    }
    forall x | x in h' && h'[x].u.Open? ensures x in out {
      assert x != uv && x in uvs && x in list;
      var i :| 0 <= i < |list| && list[i] == x;
      assert out[if i < k then i else i - 1] == x;
    }
  }

  class LuaState {
    /** The address of the stack and what it holds, the extra slots included. */
    var base: int
    var stack: seq<Value>
    var openupval: Ref
    var uvs: Heap
    var born: Ref
    ghost var list: seq<Ref>

    constructor (base: int, size: nat)
      ensures Valid() && list == [] && uvs == map[]
    {
      this.base, stack, openupval, uvs, born, list := base, seq(size + EXTRA_STACK, _ => 0), 0, map[], 1, [];
    }

    ghost predicate Valid()
      reads this
    {
      && Links(uvs, openupval, list) && Levels(uvs, list, base, |stack|)
      && born > 0 && forall uv :: uv in uvs ==> 0 < uv < born
    }

    function Read(uv: Ref): Value
      reads this
    {
      ReadIn(uvs, stack, base, uv)
    }

    function Level(uv: Ref): int
      reads this
    {
      LevelOf(uvs, base, uv)
    }

    /** The search of `luaF_findupval`: the upvalue at the level, or the place where it would be. */
    method FindPlace(level: int) returns (found: bool, pp: Slot, p: Ref, ghost k: nat)
      requires Valid() && base <= level < base + |stack|
      ensures k <= |list| && p == (if k < |list| then list[k] else 0) && pp == (if k == 0 then Head else NextOf(list[k - 1]))
      ensures found ==> k < |list| && uvs[p].v == Stack(level)
      ensures !found ==> Around(uvs, list, base, |stack|, level, k)
    {
      pp, p, k := Head, openupval, 0;
      while p != 0 && uvs[p].v.p >= level
        invariant 0 <= k <= |list| && p == (if k < |list| then list[k] else 0)
        invariant pp == if k == 0 then Head else NextOf(list[k - 1])
        invariant forall i :: 0 <= i < k ==> LevelIn(uvs, list[i], base, |stack|) && uvs[list[i]].v.p > level
        decreases |list| - k
      {
        assert Node(uvs, list, k);
        if uvs[p].v.p == level {
          return true, pp, p, k;
        }
        pp := NextOf(p);
        p := uvs[p].u.next;
        k := k + 1;
      }
      assert k < |list| ==> LevelIn(uvs, list[k], base, |stack|);
      NotFound(uvs, list, base, |stack|, level, k);
      found := false;
    }

    /** `luaF_findupval`: the upvalue at a level, found or put where the order of the list wants it. */
    method FindUpval(level: int) returns (uv: Ref)
      requires Valid() && base <= level < base + |stack|
      modifies this`openupval, this`uvs, this`born, this`list
      ensures Valid() && uv in list && Level(uv) == level - base && Read(uv) == stack[level - base]
      ensures uv in old(list) ==> list == old(list) && uvs == old(uvs)
      ensures uv !in old(list) ==> uv !in old(uvs) && (forall x :: x in old(list) ==> old(Level(x)) != level - base)
      ensures uv !in old(list) ==> exists k :: 0 <= k <= |old(list)| && list == old(list)[..k] + [uv] + old(list)[k..]
      ensures forall x :: x in old(uvs) ==> x in uvs && Read(x) == old(Read(x)) && Level(x) == old(Level(x))
    {
      hide Links, Levels, LevelIn, Around, ReadIn, LevelOf;
      var found, pp, p;
      ghost var k;
      found, pp, p, k := FindPlace(level);
      Listed(uvs, openupval, list);
      if found {
        LevelFound(uvs, base, stack, p, level);
        return p;
      }
      Skipped(uvs, list, base, |stack|, level, k);
      uv := NewUpval(level, pp, p, k);
      OpenReads(uvs, stack, base, uv);
    }

    /** `newupval` */
    method NewUpval(level: int, prev: Slot, next: Ref, ghost k: nat) returns (uv: Ref)
      requires Valid() && base <= level < base + |stack| && k <= |list|
      requires prev == (if k == 0 then Head else NextOf(list[k - 1])) && next == (if k < |list| then list[k] else 0)
      requires Around(uvs, list, base, |stack|, level, k)
      modifies this`openupval, this`uvs, this`born, this`list
      ensures Valid() && uv !in old(uvs) && list == old(list)[..k] + [uv] + old(list)[k..] && Level(uv) == level - base
      ensures forall x :: x in old(uvs) ==> x in uvs && Read(x) == old(Read(x)) && Level(x) == old(Level(x))
    {
      hide Links, Levels, LevelIn, Linked, Around, ReadIn, LevelOf, SameBut;
      uv := born;
      LinkedLinks(uvs, openupval, list, uv, level, k);
      LinkedLevels(uvs, list, uv, k, base, |stack|, level, Linked(uvs, uv, level, prev, next));
      OthersSame(uvs, Linked(uvs, uv, level, prev, next), uv, stack, base);
      uvs := Linked(uvs, uv, level, prev, next);
      if prev.Head? {
        openupval := uv;
      }
      LevelFound(uvs, base, stack, uv, level);
      SameKeys(old(uvs), uvs, uv);
      born := born + 1;
      list := list[..k] + [uv] + list[k..];
    }

    /** `luaF_unlinkupval`, the first step of freeing an upvalue that is still open. */
    method FreeUpval(uv: Ref, ghost k: nat)
      requires Valid() && k < |list| && list[k] == uv
      modifies this`openupval, this`uvs, this`list
      ensures Valid() && list == old(list)[..k] + old(list)[k + 1..] && uv !in uvs
      ensures forall x :: x in old(uvs) && x != uv ==> x in uvs && Read(x) == old(Read(x)) && Level(x) == old(Level(x))
    {
      UnlinkedLinks(uvs, openupval, list, k);
      assert Node(uvs, list, k);
      ghost var was := uvs;
      ghost var h := Unlinked(uvs, uv) - {uv};
      UnlinkedHeap(uvs, openupval, list, k, h);
      UnlinkedLevels(uvs, list, k, base, |stack|, h);
      forall x | x in uvs && x != uv ensures ReadIn(h, stack, base, x) == Read(x) && LevelOf(h, base, x) == Level(x) {
        SameReads(was, h, uv, stack, base, x);
      }
      hide Links, Levels, Unlinked, ReadIn, LevelOf;
      var prev, next := uvs[uv].u.previous, uvs[uv].u.next;
      uvs := Unlinked(uvs, uv);
      if prev.Head? {
        openupval := next;
      }
      uvs := uvs - {uv};
      list := list[..k] + list[k + 1..];
    }

    /** One turn of `luaF_closeupval`: the first open upvalue takes its value off the stack. */
    method CloseFirst()
      requires Valid() && openupval != 0
      modifies this`openupval, this`uvs, this`list
      ensures Valid() && |old(list)| > 0 && list == old(list)[1..]
      ensures old(list)[0] in uvs && uvs[old(list)[0]] == UpVal(Own, Closed(old(Read(list[0]))))
      ensures forall x :: x in old(uvs) ==> x in uvs && Read(x) == old(Read(x))
      ensures forall x :: x in old(uvs) && x != old(list)[0] ==> uvs[x].v == old(uvs)[x].v && (uvs[x].u.Closed? <==> old(uvs)[x].u.Closed?)
    {
      hide Links, Levels, LevelIn, Unlinked, ReadIn, LevelOf;
      var uv := openupval;
      HeadOpen(uvs, openupval, list, base, |stack|);
      UnlinkedLinks(uvs, openupval, list, 0);
      ghost var was := uvs;
      var slot := UpVal(Own, Closed(stack[uvs[uv].v.p - base]));
      ghost var h := Unlinked(uvs, uv)[uv := slot];
      UnlinkedHeap(uvs, openupval, list, 0, h);
      UnlinkedLevels(uvs, list, 0, base, |stack|, h);
      forall x | x in uvs && x != uv ensures ReadIn(h, stack, base, x) == Read(x) {
        SameReads(was, h, uv, stack, base, x);
      }
      OnStack(uvs, stack, base, uv);
      OwnValue(h, stack, base, uv, slot.u.value);
      assert list[..0] + list[1..] == list[1..];
      openupval := uvs[uv].u.next;
      uvs := Unlinked(uvs, uv);
      uvs := uvs[uv := slot];
      list := list[1..];
    }

    /** `luaF_closeupval`: exactly the upvalues at or above the level are closed, with the values they had. */
    method CloseUpval(level: int)
      requires Valid()
      modifies this`openupval, this`uvs, this`list
      ensures Valid()
      ensures exists n :: 0 <= n <= |old(list)| && list == old(list)[n..]
                && (forall i :: 0 <= i < |old(list)| ==> (old(Level(list[i])) >= level - base <==> i < n))
                && (forall i :: 0 <= i < n ==> old(list)[i] in uvs && uvs[old(list)[i]].u.Closed?)
      ensures forall x :: x in old(uvs) ==> x in uvs && Read(x) == old(Read(x))
    {
      hide Links, Levels, LevelIn, Closing, ReadIn, LevelOf;
      ghost var all := list;
      ghost var was := uvs;
      ghost var n := 0;
      ClosingStart(was, openupval, all, base, |stack|, level);
      HeadOpen(uvs, openupval, list, base, |stack|);
      while openupval != 0 && uvs[openupval].v.p >= level
        invariant Valid() && 0 <= n <= |all| && list == all[n..]
        invariant openupval == (if n < |all| then all[n] else 0) && (openupval == 0 <==> n == |all|)
        invariant openupval != 0 ==> openupval in uvs && uvs[openupval].v.Stack?
        invariant forall x :: x in was ==> x in uvs && Read(x) == old(Read(x))
        invariant Closing(was, uvs, all, n, level)
        decreases |all| - n
      {
        label L:
        ClosingNow(was, uvs, all, n, level);
        CloseFirst();
        assert all[n..][0] == all[n] && all[n..][1..] == all[n + 1..];
        HeadIs(uvs, openupval, list);
        HeadOpen(uvs, openupval, list, base, |stack|);
        ClosingNext(was, old@L(uvs), uvs, all, n, level);
        n := n + 1;
      }
      if n < |all| { ClosingNow(was, uvs, all, n, level); }
      ClosingDone(was, uvs, all, n, level, base);
    }

    /** An assignment through an upvalue: to the stack while it is open, to the upvalue when it is closed. */
    method Assign(uv: Ref, value: Value)
      requires Valid() && uv in uvs
      modifies this`stack, this`uvs
      ensures Valid() && Read(uv) == value && |stack| == |old(stack)|
      ensures forall x :: x in uvs && x != uv ==> Read(x) == old(Read(x))
      ensures forall i :: 0 <= i < |stack| ==> stack[i] == if i == Level(uv) then value else old(stack)[i]
    {
      if uvs[uv].u.Open? {
        ghost var k :| 0 <= k < |list| && list[k] == uv;
        assert LevelIn(uvs, list[k], base, |stack|);
        forall x | x in uvs && x != uv && uvs[x].v.Stack? ensures uvs[x].v.p != uvs[uv].v.p {
          OneLevelEach(x, uv);
        }
        stack := stack[uvs[uv].v.p - base := value];
      } else {
        uvs := uvs[uv := UpVal(uvs[uv].v, Closed(value))];
        ClosedChanged(old(uvs), openupval, list, base, |stack|, uv, value);
      }
    }

    /** Two open upvalues never stand for the same level. */
    lemma OneLevelEach(x: Ref, y: Ref)
      requires Valid() && x in uvs && y in uvs && uvs[x].v.Stack? && uvs[y].v.Stack? && x != y
      ensures uvs[x].v.p != uvs[y].v.p
    {
      assert x in list && y in list;
      var i :| 0 <= i < |list| && list[i] == x;
      var j :| 0 <= j < |list| && list[j] == y;
      assert i < j || j < i;
    }

    /** `relstack`, for the open upvalues: addresses become offsets. */
    method RelStack()
      requires Valid()
      modifies this`uvs
      ensures Links(uvs, openupval, list) && Placed(old(uvs), uvs, list, |list|, base)
    {
      hide Levels, Placed, Links, LevelIn;
      ghost var was := uvs;
      PlacedStart(uvs, list, base, |stack|);
      NodeAt(uvs, openupval, list, 0);
      var up := openupval;
      ghost var k := 0;
      while up != 0
        invariant 0 <= k <= |list| && up == (if k < |list| then list[k] else 0) && (up == 0 <==> k == |list|)
        invariant Links(uvs, openupval, list) && Placed(was, uvs, list, k, base)
        decreases |list| - k
      {
        PlacedNext(was, uvs, openupval, list, k, base);
        uvs := uvs[up := uvs[up].(v := Offset(uvs[up].v.p - base))];
        NodeAt(uvs, openupval, list, k);
        up := uvs[up].u.next;
        k := k + 1;
        NodeAt(uvs, openupval, list, k);
      }
    }

    /** `correctstack`, for the open upvalues: offsets become addresses again. */
    method CorrectStack(ghost was: Heap, ghost oldbase: int)
      requires Links(uvs, openupval, list) && Placed(was, uvs, list, |list|, oldbase)
      modifies this`uvs
      ensures Links(uvs, openupval, list) && Moved(was, uvs, list, |list|, oldbase, base)
    {
      hide Placed, Moved, Links;
      MovedStart(was, uvs, list, oldbase, base);
      NodeAt(uvs, openupval, list, 0);
      var up := openupval;
      ghost var k := 0;
      while up != 0
        invariant 0 <= k <= |list| && up == (if k < |list| then list[k] else 0) && (up == 0 <==> k == |list|)
        invariant Links(uvs, openupval, list) && Moved(was, uvs, list, k, oldbase, base)
        decreases |list| - k
      {
        MovedNext(was, uvs, openupval, list, k, oldbase, base);
        uvs := uvs[up := uvs[up].(v := Stack(uvs[up].v.off + base))];
        NodeAt(uvs, openupval, list, k);
        up := uvs[up].u.next;
        k := k + 1;
        NodeAt(uvs, openupval, list, k);
      }
    }

    /** `luaD_reallocstack`: the stack moves to another address, or stays where it is when there is no memory. The new
        size has room for every open upvalue. */
    method ReallocStack(newsize: nat, newbase: int, enoughMemory: bool) returns (ok: bool)
      requires Valid() && forall uv :: uv in list ==> Level(uv) < newsize + 5
      modifies this`base, this`stack, this`uvs
      ensures Valid() && ok == enoughMemory && list == old(list)
      ensures forall x :: x in old(uvs) ==> x in uvs && Read(x) == old(Read(x)) && Level(x) == old(Level(x))
      ensures !ok ==> stack == old(stack) && base == old(base)
      ensures ok ==> base == newbase && |stack| == newsize + 5
      ensures ok ==> forall i :: 0 <= i < |stack| ==> stack[i] == if i < |old(stack)| then old(stack)[i] else 0
    {
      hide Links, Levels, LevelIn, ReadIn, LevelOf, Placed, Moved;
      ghost var was, oldbase, oldstack := uvs, base, stack;
      OpenListed(was, openupval, list);
      LevelsInside(was, list, base, |stack|);
      RelStack();
      if enoughMemory {
        var size := newsize + EXTRA_STACK;
        stack := if size <= |stack| then stack[..size] else stack + seq(size - |stack|, _ => 0);
        base := newbase;
      }
      CorrectStack(was, oldbase);
      ok := enoughMemory;
      KeysMoved(was, uvs, list, oldbase, base);
      MovedLevels(was, uvs, list, oldbase, |oldstack|, base, |stack|);
      forall x | x in was ensures Read(x) == ReadIn(was, oldstack, oldbase, x) && Level(x) == LevelOf(was, oldbase, x) {
        MovedReads(was, uvs, list, oldbase, oldstack, base, stack, x);
      }
    }
  }

  /** The head of the list is open, with its place in the stack. */
  lemma HeadOpen(uvs: Heap, head: Ref, list: seq<Ref>, base: int, size: int)
    requires Links(uvs, head, list) && Levels(uvs, list, base, size)
    ensures head != 0 ==> |list| > 0 && head == list[0] && head in uvs && uvs[head].v.Stack? && uvs[head].u.Open?
    ensures head != 0 ==> 0 <= uvs[head].v.p - base < size
    ensures forall i, j :: 0 <= i < j < |list| ==> list[i] != list[j]
  {
    if |list| > 0 { assert Node(uvs, list, 0) && LevelIn(uvs, list[0], base, size); }
  }

  /** The value on the stack of an open upvalue. */
  lemma OnStack(uvs: Heap, stack: seq<Value>, base: int, uv: Ref)
    requires uv in uvs && uvs[uv].v.Stack? && 0 <= uvs[uv].v.p - base < |stack|
    ensures ReadIn(uvs, stack, base, uv) == stack[uvs[uv].v.p - base]
  {
  }

  lemma OwnValue(uvs: Heap, stack: seq<Value>, base: int, uv: Ref, value: Value)
    requires uv in uvs && uvs[uv] == UpVal(Own, Closed(value))
    ensures ReadIn(uvs, stack, base, uv) == value
  {
  }

  /** The first `n` upvalues of the list, all at or above the level, have been closed; the others are as they were, in
      descending order. */
  ghost predicate Closing(was: Heap, now: Heap, all: seq<Ref>, n: nat, level: int) {
    && (forall i :: 0 <= i < |all| ==> all[i] in was && was[all[i]].v.Stack? && all[i] in now && all[i] != 0)
    && (forall i, j :: 0 <= i < j < |all| ==> all[i] != all[j] && was[all[i]].v.p > was[all[j]].v.p)
    && (forall i :: 0 <= i < |all| ==> if i < n then was[all[i]].v.p >= level && now[all[i]].u.Closed? else now[all[i]].v == was[all[i]].v)
  }

  lemma ClosingStart(was: Heap, head: Ref, all: seq<Ref>, base: int, size: int, level: int)
    requires Links(was, head, all) && Levels(was, all, base, size)
    ensures Closing(was, was, all, 0, level)
    ensures head == (if |all| > 0 then all[0] else 0) && (head == 0 <==> |all| == 0)
  {
    forall i | 0 <= i < |all| ensures all[i] in was && was[all[i]].v.Stack? && all[i] != 0 {
      assert Node(was, all, i) && LevelIn(was, all[i], base, size);
    }
  }

  lemma ClosingNow(was: Heap, now: Heap, all: seq<Ref>, n: nat, level: int)
    requires Closing(was, now, all, n, level) && n < |all|
    ensures all[n] in was && all[n] in now && now[all[n]].v == was[all[n]].v && was[all[n]].v.Stack?
  {
  }

  lemma ClosingNext(was: Heap, now: Heap, now': Heap, all: seq<Ref>, n: nat, level: int)
    requires Closing(was, now, all, n, level) && n < |all| && all[n] in was && was[all[n]].v.Stack? && was[all[n]].v.p >= level
    requires all[n] in now' && now'[all[n]].u.Closed? && forall x :: x in now ==> x in now'
    requires forall x :: x in now && x != all[n] ==> now'[x].v == now[x].v && (now'[x].u.Closed? <==> now[x].u.Closed?)
    ensures Closing(was, now', all, n + 1, level)
  {
  }

  lemma ClosingDone(was: Heap, now: Heap, all: seq<Ref>, n: nat, level: int, base: int)
    requires Closing(was, now, all, n, level) && n <= |all|
    requires n < |all| ==> all[n] in was && was[all[n]].v.Stack? && was[all[n]].v.p < level
    ensures forall i :: 0 <= i < |all| ==> (LevelOf(was, base, all[i]) >= level - base <==> i < n)
    ensures forall i :: 0 <= i < n ==> all[i] in now && now[all[i]].u.Closed?
  {
    forall i | 0 <= i < |all| ensures was[all[i]].v.p >= level <==> i < n {
      if i > n { assert was[all[n]].v.p > was[all[i]].v.p; }
    }
  }

  /** What does not touch the other upvalues leaves what they read, and where. */
  lemma OthersSame(a: Heap, b: Heap, but: Ref, stack: seq<Value>, base: int)
    requires SameBut(a, b, but)
    ensures forall x :: x in a && x != but ==>
              x in b && ReadIn(b, stack, base, x) == ReadIn(a, stack, base, x) && LevelOf(b, base, x) == LevelOf(a, base, x)
  {
    forall x | x in a && x != but
      ensures x in b && ReadIn(b, stack, base, x) == ReadIn(a, stack, base, x) && LevelOf(b, base, x) == LevelOf(a, base, x)
    {
      SameReads(a, b, but, stack, base, x);
    }
  }

  /** The first `k` open upvalues hold offsets from `base`, the others still addresses. */
  ghost predicate Placed(was: Heap, now: Heap, list: seq<Ref>, k: nat, base: int) {
    && (forall x :: x in was <==> x in now)
    && (forall i :: 0 <= i < |list| ==> list[i] in was && was[list[i]].v.Stack?)
    && (forall i :: 0 <= i < |list| && list[i] in was && was[list[i]].v.Stack? && list[i] in now ==>
          now[list[i]] == if i < k then was[list[i]].(v := Offset(was[list[i]].v.p - base)) else was[list[i]])
    && (forall x :: x in was && x in now && x !in list ==> now[x] == was[x])
  }

  lemma PlacedNext(was: Heap, now: Heap, head: Ref, list: seq<Ref>, k: nat, base: int)
    requires Links(now, head, list) && Placed(was, now, list, k, base) && k < |list|
    ensures list[k] in now && now[list[k]].v.Stack? && now[list[k]].u.Open?
    ensures var now' := now[list[k] := now[list[k]].(v := Offset(now[list[k]].v.p - base))];
            && Links(now', head, list) && Placed(was, now', list, k + 1, base)
            && forall i :: 0 <= i < |list| ==> Node(now', list, i)
  {
    assert Node(now, list, k);
    PlaceChanged(now, Offset(now[list[k]].v.p - base), head, list, list[k]);
  }

  /** Where values are does not matter to the links. */
  lemma PlaceChanged(now: Heap, place: Place, head: Ref, list: seq<Ref>, uv: Ref)
    requires Links(now, head, list) && uv in now
    ensures var now' := now[uv := now[uv].(v := place)];
            Links(now', head, list) && forall i :: 0 <= i < |list| ==> Node(now', list, i)
  {
    var now' := now[uv := now[uv].(v := place)];
    forall i | 0 <= i < |list| ensures Node(now', list, i) {
      assert Node(now, list, i);
    }
  }

  /** The first `k` open upvalues have their addresses in the new stack, the others offsets. */
  ghost predicate Moved(was: Heap, now: Heap, list: seq<Ref>, k: nat, base: int, base': int) {
    && (forall x :: x in was <==> x in now)
    && (forall i :: 0 <= i < |list| ==> list[i] in was && was[list[i]].v.Stack?)
    && (forall i :: 0 <= i < |list| && list[i] in was && was[list[i]].v.Stack? && list[i] in now ==>
          now[list[i]] == was[list[i]].(v := if i < k then Stack(was[list[i]].v.p - base + base') else Offset(was[list[i]].v.p - base)))
    && (forall x :: x in was && x in now && x !in list ==> now[x] == was[x])
  }

  lemma MovedNext(was: Heap, now: Heap, head: Ref, list: seq<Ref>, k: nat, base: int, base': int)
    requires Links(now, head, list) && Moved(was, now, list, k, base, base') && k < |list|
    ensures list[k] in now && now[list[k]].v.Offset? && now[list[k]].u.Open?
    ensures var now' := now[list[k] := now[list[k]].(v := Stack(now[list[k]].v.off + base'))];
            && Links(now', head, list) && Moved(was, now', list, k + 1, base, base')
            && forall i :: 0 <= i < |list| ==> Node(now', list, i)
  {
    assert Node(now, list, k);
    PlaceChanged(now, Stack(now[list[k]].v.off + base'), head, list, list[k]);
  }

  lemma MovedLevels(was: Heap, now: Heap, list: seq<Ref>, base: int, size: int, base': int, size': int)
    requires Moved(was, now, list, |list|, base, base') && Levels(was, list, base, size)
    requires forall uv :: uv in list ==> LevelOf(was, base, uv) < size'
    requires forall x :: x in was && was[x].u.Open? ==> x in list
    ensures Levels(now, list, base', size')
  {
    forall i | 0 <= i < |list| ensures LevelIn(now, list[i], base', size') && now[list[i]].v.p == was[list[i]].v.p - base + base' {
      assert list[i] in list && LevelIn(was, list[i], base, size);
    }
    forall i, j | 0 <= i < j < |list| ensures now[list[i]].v.p > now[list[j]].v.p {
      assert was[list[i]].v.p > was[list[j]].v.p;
    }
    forall x | x in was ensures now[x].u == was[x].u && (was[x].v.Own? ==> now[x] == was[x]) {
      if x in list {
        var i :| 0 <= i < |list| && list[i] == x;
        assert was[list[i]].v.Stack?;
      }
    }
  }

  lemma KeysMoved(was: Heap, now: Heap, list: seq<Ref>, base: int, base': int)
    requires Moved(was, now, list, |list|, base, base')
    ensures forall x :: x in was <==> x in now
  {
  }

  lemma OpenListed(uvs: Heap, head: Ref, list: seq<Ref>)
    requires Links(uvs, head, list)
    ensures forall x :: x in uvs && uvs[x].u.Open? ==> x in list
  {
  }

  lemma MovedReads(was: Heap, now: Heap, list: seq<Ref>, base: int, stack: seq<Value>, base': int, stack': seq<Value>, x: Ref)
    requires Moved(was, now, list, |list|, base, base') && Levels(was, list, base, |stack|) && x in was
    requires forall uv :: uv in list ==> LevelOf(was, base, uv) < |stack'|
    requires forall i :: 0 <= i < |stack'| && i < |stack| ==> stack'[i] == stack[i]
    requires forall y :: y in was && was[y].u.Open? ==> y in list
    ensures ReadIn(now, stack', base', x) == ReadIn(was, stack, base, x) && LevelOf(now, base', x) == LevelOf(was, base, x)
  {
    if x in list {
      var i :| 0 <= i < |list| && list[i] == x;
      assert LevelIn(was, list[i], base, |stack|);
    }
  }

  lemma ClosedChanged(uvs: Heap, head: Ref, list: seq<Ref>, base: int, size: int, uv: Ref, value: Value)
    requires Links(uvs, head, list) && Levels(uvs, list, base, size) && uv in uvs && uvs[uv].u.Closed?
    ensures var h := uvs[uv := UpVal(uvs[uv].v, Closed(value))]; Links(h, head, list) && Levels(h, list, base, size)
  {
    var h := uvs[uv := UpVal(uvs[uv].v, Closed(value))];
    forall i | 0 <= i < |list| ensures list[i] != uv && Node(h, list, i) && LevelIn(h, list[i], base, size) {
      assert Node(uvs, list, i) && LevelIn(uvs, list[i], base, size);
    }
  }

  lemma NodeAt(uvs: Heap, head: Ref, list: seq<Ref>, k: nat)
    requires Links(uvs, head, list)
    ensures head == if list == [] then 0 else list[0]
    ensures k < |list| ==> list[k] != 0 && list[k] in uvs && uvs[list[k]].u == Open(NextAt(list, k), PrevAt(list, k))
  {
    if k < |list| {
      assert Node(uvs, list, k);
    }
  }

  lemma PlacedStart(uvs: Heap, list: seq<Ref>, base: int, size: int)
    requires Levels(uvs, list, base, size)
    ensures Placed(uvs, uvs, list, 0, base)
  {
    assert forall i :: 0 <= i < |list| ==> LevelIn(uvs, list[i], base, size);
  }

  lemma MovedStart(was: Heap, now: Heap, list: seq<Ref>, base: int, base': int)
    requires Placed(was, now, list, |list|, base)
    ensures Moved(was, now, list, 0, base, base')
  {
  }

  lemma HeadIs(uvs: Heap, head: Ref, list: seq<Ref>)
    requires Links(uvs, head, list)
    ensures head == (if list == [] then 0 else list[0]) && (list != [] ==> head != 0 && head in uvs)
  {
    if list != [] {
      assert Node(uvs, list, 0);
    }
  }

  lemma UnlinkedLevels(uvs: Heap, list: seq<Ref>, k: nat, base: int, size: int, h: Heap)
    requires Levels(uvs, list, base, size) && k < |list| && list[k] in uvs && SameBut(uvs, h, list[k])
    requires forall i, j :: 0 <= i < j < |list| ==> list[i] != list[j]
    requires list[k] in h ==> h[list[k]].v.Own?
    ensures Levels(h, list[..k] + list[k + 1..], base, size)
  {
    var out := list[..k] + list[k + 1..];
    assert forall i :: 0 <= i < |out| ==> out[i] == list[if i < k then i else i + 1];
    forall i | 0 <= i < |out| ensures LevelIn(h, out[i], base, size) && h[out[i]].v == uvs[out[i]].v {
      assert LevelIn(uvs, list[if i < k then i else i + 1], base, size);
    }
    forall i, j | 0 <= i < j < |out| ensures h[out[i]].v.p > h[out[j]].v.p {
      assert uvs[list[if i < k then i else i + 1]].v.p > uvs[list[if j < k then j else j + 1]].v.p;
    }
  }

  lemma NotFound(uvs: Heap, list: seq<Ref>, base: int, size: int, level: int, k: nat)
    requires Levels(uvs, list, base, size) && k <= |list|
    requires forall i :: 0 <= i < k ==> LevelIn(uvs, list[i], base, size) && uvs[list[i]].v.p > level
    requires k < |list| ==> LevelIn(uvs, list[k], base, size) && uvs[list[k]].v.p < level
    ensures Around(uvs, list, base, size, level, k)
  {
  }

  lemma LinkedLevels(uvs: Heap, list: seq<Ref>, uv: Ref, k: nat, base: int, size: int, level: int, h: Heap)
    requires Levels(uvs, list, base, size) && uv !in uvs && k <= |list| && base <= level < base + size
    requires Around(uvs, list, base, size, level, k)
    requires SameBut(uvs, h, uv) && uv in h && h[uv].v == Stack(level) && h[uv].u.Open?
    ensures Levels(h, list[..k] + [uv] + list[k..], base, size)
  {
    var out := list[..k] + [uv] + list[k..];
    assert forall i :: 0 <= i < |out| ==> out[i] == if i < k then list[i] else if i == k then uv else list[i - 1];
    forall i | 0 <= i < |out| ensures LevelIn(h, out[i], base, size)
      ensures i < k ==> h[out[i]].v == uvs[list[i]].v && h[out[i]].v.p > level
      ensures i > k ==> h[out[i]].v == uvs[list[i - 1]].v && h[out[i]].v.p < level
    {
      if i < k {
        assert LevelIn(uvs, list[i], base, size);
      } else if i > k {
        assert LevelIn(uvs, list[i - 1], base, size);
      }
    }
    forall i, j | 0 <= i < j < |out| ensures h[out[i]].v.p > h[out[j]].v.p {
      if j < k {
        assert uvs[list[i]].v.p > uvs[list[j]].v.p;
      } else if i > k {
        assert uvs[list[i - 1]].v.p > uvs[list[j - 1]].v.p;
      }
    }
  }
}
