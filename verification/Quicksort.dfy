/** `table.sort` of ltablib.c: quicksort over the places 1 to n of a table, with a comparison function about which
    nothing is known: it may answer differently each time it is asked, and it may raise an error. */
module Quicksort {
  datatype Answer = Yes | No | Raise

  datatype Result = Done | InvalidOrder | Raised

  const RANLIMIT := 100
  const INT_MAX := 0x7FFF_FFFF

  // ----- orders -----

  /** A value of the table. Nothing about it matters here but which one it is. */
  type Value = int

  /** A relation between values, as the set of the pairs it relates. */
  type Order = iset<(Value, Value)>

  ghost predicate Less(lt: Order, a: Value, b: Value) {
    (a, b) in lt
  }

  /** `lua_lessthan` style orders: irreflexive, transitive, and with a transitive "neither less nor greater". */
  ghost predicate StrictWeak(lt: Order) {
    && (forall a :: !Less(lt, a, a))
    && (forall a, b, c :: Less(lt, a, b) && Less(lt, b, c) ==> Less(lt, a, c))
    && (forall a, b, c :: !Less(lt, a, b) && !Less(lt, b, c) ==> !Less(lt, a, c))
  }

  /** The comparison function always answers as `lt` does. */
  ghost predicate Follows(cmp: (nat, Value, Value) -> Answer, lt: Order) {
    forall k, a, b :: cmp(k, a, b) == if Less(lt, a, b) then Yes else No
  }

  // ----- permutations of an interval of the table -----

  /** Only the places `lo` to `up` differ, and they hold the same values in some order. */
  ghost predicate Perm(a: seq<Value>, b: seq<Value>, lo: nat, up: nat) {
    && |a| == |b| && 1 <= lo <= up + 1 <= |a| + 1
    && b[..lo - 1] == a[..lo - 1] && b[up..] == a[up..]
    && multiset(b[lo - 1..up]) == multiset(a[lo - 1..up])
  }

  lemma PermRefl(a: seq<Value>, lo: nat, up: nat)
    requires 1 <= lo <= up + 1 <= |a| + 1
    ensures Perm(a, a, lo, up)
  {
  }

  lemma PermTrans(a: seq<Value>, b: seq<Value>, c: seq<Value>, lo: nat, up: nat)
    requires Perm(a, b, lo, up) && Perm(b, c, lo, up)
    ensures Perm(a, c, lo, up)
  {
  }

  lemma PermWider(a: seq<Value>, b: seq<Value>, lo: nat, up: nat, lo': nat, up': nat)
    requires Perm(a, b, lo, up) && 1 <= lo' <= lo && up <= up' <= |a|
    ensures Perm(a, b, lo', up')
  {
    assert b[..lo' - 1] == b[..lo - 1][..lo' - 1] == a[..lo' - 1];
    assert b[up'..] == b[up..][up' - up..] == a[up'..];
    assert a[lo' - 1..up'] == a[lo' - 1..lo - 1] + a[lo - 1..up] + a[up..up'];
    assert b[lo' - 1..up'] == b[lo' - 1..lo - 1] + b[lo - 1..up] + b[up..up'];
    assert b[lo' - 1..lo - 1] == b[..lo - 1][lo' - 1..] == a[lo' - 1..lo - 1];
    assert b[up..up'] == b[up..][..up' - up] == a[up..up'];
  }

  /** The value at place `i`, counted from 1. */
  function Item(a: seq<Value>, i: nat): Value
    requires 1 <= i <= |a|
  {
    a[i - 1]
  }

  function Swapped(a: seq<Value>, i: nat, j: nat): (b: seq<Value>)
    requires 1 <= i <= |a| && 1 <= j <= |a|
    ensures |b| == |a|
  {
    a[i - 1 := a[j - 1]][j - 1 := a[i - 1]]
  }

  lemma SwapPerm(a: seq<Value>, i: nat, j: nat, lo: nat, up: nat)
    requires 1 <= lo <= i <= up <= |a| && lo <= j <= up
    ensures Perm(a, Swapped(a, i, j), lo, up)
  {
    var b := Swapped(a, i, j);
    var x, y := a[lo - 1..up], b[lo - 1..up];
    assert y == x[i - lo := x[j - lo]][j - lo := x[i - lo]];
    assert b[..lo - 1] == a[..lo - 1];
    assert b[up..] == a[up..];
  }

  lemma SwapAgain(start: seq<Value>, was: seq<Value>, i: nat, j: nat, lo: nat, up: nat)
    requires 1 <= lo <= i <= up <= |was| && lo <= j <= up && Perm(start, was, lo, up)
    ensures Perm(start, Swapped(was, i, j), lo, up)
  {
    SwapPerm(was, i, j, lo, up);
    PermTrans(start, was, Swapped(was, i, j), lo, up);
  }

  /** What holds of every value in the interval still does. */
  lemma PermAll(a: seq<Value>, b: seq<Value>, lo: nat, up: nat, k: nat) returns (j: nat)
    requires Perm(a, b, lo, up) && lo <= k <= up
    ensures lo <= j <= up && Item(b, k) == Item(a, j)
  {
    var x, y := a[lo - 1..up], b[lo - 1..up];
    assert y[k - lo] in multiset(y);
    assert b[k - 1] in x;
    var m :| 0 <= m < |x| && x[m] == b[k - 1];
    j := m + lo;
  }

  lemma PermOutside(a: seq<Value>, b: seq<Value>, lo: nat, up: nat, k: nat)
    requires Perm(a, b, lo, up) && 1 <= k <= |a| && (k < lo || k > up)
    ensures Item(b, k) == Item(a, k)
  {
    if k < lo {
      assert b[..lo - 1][k - 1] == a[..lo - 1][k - 1];
    } else {
      assert b[up..][k - 1 - up] == a[up..][k - 1 - up];
    }
  }

  // ----- sortedness -----

  /** Places `i < j` of the interval from `lo` to `up` are in order whenever one of them is outside `from`..`to`. */
  ghost predicate SortedBut(lt: Order, a: seq<Value>, lo: nat, up: nat, from: nat, to: nat)
    requires 1 <= lo && up <= |a|
  {
    forall i, j :: lo <= i < j <= up && (i < from || j > to) ==> !Less(lt, Item(a, j), Item(a, i))
  }

  lemma NothingSorted(lt: Order, a: seq<Value>, lo: nat, up: nat)
    requires 1 <= lo && up <= |a|
    ensures SortedBut(lt, a, lo, up, lo, up)
  {
  }

  ghost predicate Sorted(lt: Order, a: seq<Value>, lo: nat, up: nat)
    requires 1 <= lo && up <= |a|
  {
    forall i, j :: lo <= i < j <= up ==> !Less(lt, Item(a, j), Item(a, i))
  }

  /** Around the pivot at `p`: no smaller value above it and no greater one below. */
  ghost predicate Parted(lt: Order, a: seq<Value>, lo: nat, p: nat, up: nat)
    requires 1 <= lo && lo <= p <= up && up <= |a|
  {
    && (forall k :: lo <= k <= p ==> !Less(lt, Item(a, p), Item(a, k)))
    && (forall k :: p <= k <= up ==> !Less(lt, Item(a, k), Item(a, p)))
  }

  ghost predicate LowSide(lt: Order, a: seq<Value>, lo: nat, i: nat, x: Value)
    requires 1 <= lo && i <= |a|
  {
    forall k :: lo <= k <= i ==> !Less(lt, x, Item(a, k))
  }

  ghost predicate HighSide(lt: Order, a: seq<Value>, j: nat, up: nat, x: Value)
    requires 1 <= j && up <= |a|
  {
    forall k :: j <= k <= up ==> !Less(lt, Item(a, k), x)
  }

  lemma SwapSides(lt: Order, a: seq<Value>, lo: nat, i: nat, j: nat, up: nat, x: Value)
    requires 1 <= lo <= i <= j <= up <= |a|
    requires LowSide(lt, a, lo, i - 1, x) && HighSide(lt, a, j + 1, up, x) && !Less(lt, Item(a, i), x) && !Less(lt, x, Item(a, j))
    ensures LowSide(lt, Swapped(a, i, j), lo, i, x) && HighSide(lt, Swapped(a, i, j), j, up, x)
  {
    SwapItems(a, i, j);
  }

  lemma SwapItems(a: seq<Value>, i: nat, j: nat)
    requires 1 <= i <= |a| && 1 <= j <= |a|
    ensures forall k :: 1 <= k <= |a| ==>
              Item(Swapped(a, i, j), k) == if k == i then Item(a, j) else if k == j then Item(a, i) else Item(a, k)
  {
  }

  lemma PivotIn(lt: Order, a: seq<Value>, lo: nat, i: nat, j: nat, up: nat, x: Value)
    requires StrictWeak(lt) && 1 <= lo && j < i && lo <= i < up <= |a| && Item(a, up - 1) == x && i <= up - 1
    requires LowSide(lt, a, lo, i - 1, x) && HighSide(lt, a, j + 1, up, x)
    ensures Parted(lt, Swapped(a, up - 1, i), lo, i, up)
  {
    SwapItems(a, up - 1, i);
  }

  /** Reordering the unfinished part leaves the finished parts in order. */
  lemma SortedButPerm(lt: Order, a: seq<Value>, b: seq<Value>, lo: nat, up: nat, from: nat, to: nat)
    requires Perm(a, b, from, to) && 1 <= lo <= from && to <= up <= |a| && SortedBut(lt, a, lo, up, from, to)
    ensures SortedBut(lt, b, lo, up, from, to)
  {
    forall i, j | lo <= i < j <= up && (i < from || j > to) ensures !Less(lt, Item(b, j), Item(b, i)) {
      var i', j' := i, j;
      if from <= i <= to {
        i' := PermAll(a, b, from, to, i);
      } else {
        PermOutside(a, b, from, to, i);
      }
      if from <= j <= to {
        j' := PermAll(a, b, from, to, j);
      } else {
        PermOutside(a, b, from, to, j);
      }
    }
  }

  lemma PartedPerm(lt: Order, a: seq<Value>, b: seq<Value>, lo: nat, p: nat, up: nat, from: nat, to: nat)
    requires 1 <= lo <= p <= up <= |a| && Parted(lt, a, lo, p, up) && Perm(a, b, from, to)
    requires (from == lo && to == p - 1) || (from == p + 1 && to == up)
    ensures Parted(lt, b, lo, p, up)
  {
    PermOutside(a, b, from, to, p);
    forall k | lo <= k <= up ensures k <= p ==> !Less(lt, Item(b, p), Item(b, k)) ensures p <= k ==> !Less(lt, Item(b, k), Item(b, p)) {
      if from <= k <= to {
        var k' := PermAll(a, b, from, to, k);
      } else {
        PermOutside(a, b, from, to, k);
      }
    }
  }

  /** One side of the pivot sorted: only the other side is unfinished. */
  lemma SideDone(lt: Order, a: seq<Value>, lo: nat, up: nat, from: nat, p: nat, to: nat, lower: bool)
    requires StrictWeak(lt) && 1 <= lo <= from <= p <= to <= up <= |a|
    requires SortedBut(lt, a, lo, up, from, to) && Parted(lt, a, from, p, to)
    requires if lower then Sorted(lt, a, from, p - 1) else Sorted(lt, a, p + 1, to)
    ensures if lower then SortedBut(lt, a, lo, up, p + 1, to) else SortedBut(lt, a, lo, up, from, p - 1)
  {
    forall i, j | lo <= i < j <= up && (if lower then i < p + 1 || j > to else i < from || j > p - 1)
      ensures !Less(lt, Item(a, j), Item(a, i))
    {
      if from <= i && j <= to && i <= p <= j {
        assert !Less(lt, Item(a, p), Item(a, i)) && !Less(lt, Item(a, j), Item(a, p));
      }
    }
  }

  function Pow2(n: nat): nat {
    if n == 0 then 1 else 2 * Pow2(n - 1)
  }

  /** The logarithm to base 2, rounded down. */
  ghost function Log2(n: nat): (k: nat)
    requires n >= 2
    ensures k >= 1 && Pow2(k) <= n < 2 * Pow2(k)
  {
    if n < 4 then assert Pow2(1) == 2; 1 else Log2(n / 2) + 1
  }

  /** `choosePivot` */
  function ChoosePivot(lo: nat, up: nat, rnd: nat): (p: nat)
    requires lo + 4 <= up
    ensures lo + (up - lo) / 4 <= p <= up - (up - lo) / 4
  {
    var r4 := (up - lo) / 4;
    rnd % (r4 * 2) + (lo + r4)
  }

  class Sorter {
    var table: seq<Value>
    var calls: nat
    const cmp: (nat, Value, Value) -> Answer

    constructor (table: seq<Value>, cmp: (nat, Value, Value) -> Answer)
      ensures this.table == table && this.cmp == cmp
    {
      this.table, this.cmp, calls := table, cmp, 0;
    }

    /** `set2` after two reads: the values of two places exchanged. */
    method Set2(i: nat, j: nat)
      requires 1 <= i <= |table| && 1 <= j <= |table|
      modifies this`table
      ensures table == Swapped(old(table), i, j)
    {
      table := table[i - 1 := table[j - 1]][j - 1 := table[i - 1]];
    }

    /** `sort_comp` */
    method SortComp(a: Value, b: Value) returns (r: Answer)
      modifies this`calls
      ensures r == cmp(old(calls), a, b) && calls == old(calls) + 1
    {
      r := cmp(calls, a, b);
      calls := calls + 1;
    }

    /** `partition`, with the pivot `x` at place `up - 1`. */
    method Partition(lo: nat, up: nat, x: Value, ghost ordered: bool, ghost lt: Order) returns (r: Result, p: nat)
      requires 1 <= lo && lo + 3 <= up <= |table| && Item(table, up - 1) == x
      requires ordered ==> StrictWeak(lt) && Follows(cmp, lt) && !Less(lt, x, Item(table, lo)) && !Less(lt, Item(table, up), x)
      modifies this
      ensures |table| == |old(table)| && Perm(old(table), table, lo, up)
      ensures r.Done? ==> lo < p < up
      ensures ordered ==> r.Done? && Parted(lt, table, lo, p, up)
    {
      ghost var start := table;
      PermRefl(table, lo, up);
      var i, j := lo, up - 1;
      p := lo;
      assert ordered ==> LowSide(lt, table, lo, i, x) && HighSide(lt, table, j, up, x);
      hide Perm, StrictWeak, Follows, LowSide, HighSide, Parted, Swapped;
      while true
        invariant lo <= i <= j <= up - 1 && lo < j && i < up - 1 && |table| == |start|
        invariant Perm(start, table, lo, up) && Item(table, up - 1) == x
        invariant ordered ==> LowSide(lt, table, lo, i, x) && HighSide(lt, table, j, up, x)
        decreases j - i
      {
        r, i := ScanUp(lo, i, up, x, ordered, lt);
        if !r.Done? {
          return;
        }
        r, j := ScanDown(lo, i, j, up, x, ordered, lt);
        if !r.Done? {
          return;
        }
        if j < i {
          PlacePivot(lo, i, j, up, x, start, ordered, lt);
          p := i;
          return;
        }
        Exchange(lo, i, j, up, x, start, ordered, lt);
      }
    }

    /** No elements are out of place: the pivot goes to `i`. */
    method PlacePivot(lo: nat, i: nat, j: nat, up: nat, x: Value, ghost start: seq<Value>, ghost ordered: bool,
                      ghost lt: Order)
      requires 1 <= lo && j < i && lo <= i < up <= |table| && Item(table, up - 1) == x && Perm(start, table, lo, up)
      requires ordered ==> StrictWeak(lt) && LowSide(lt, table, lo, i - 1, x) && HighSide(lt, table, j + 1, up, x)
      modifies this`table
      ensures |table| == |old(table)| && Perm(start, table, lo, up)
      ensures ordered ==> Parted(lt, table, lo, i, up)
    {
      hide Perm, LowSide, HighSide, Parted, StrictWeak, Swapped, Item, Less;
      if ordered {
        PivotIn(lt, table, lo, i, j, up, x);
      }
      SwapAgain(start, table, up - 1, i, lo, up);
      Set2(up - 1, i);
    }

    /** Two elements out of place are exchanged. */
    method Exchange(lo: nat, i: nat, j: nat, up: nat, x: Value, ghost start: seq<Value>, ghost ordered: bool,
                    ghost lt: Order)
      requires 1 <= lo <= i <= j < up - 1 < |table| && Item(table, up - 1) == x && Perm(start, table, lo, up)
      requires ordered ==> LowSide(lt, table, lo, i - 1, x) && HighSide(lt, table, j + 1, up, x)
      requires ordered ==> !Less(lt, Item(table, i), x) && !Less(lt, x, Item(table, j))
      modifies this`table
      ensures |table| == |old(table)| && Perm(start, table, lo, up) && Item(table, up - 1) == x
      ensures ordered ==> LowSide(lt, table, lo, i, x) && HighSide(lt, table, j, up, x)
    {
      if ordered {
        SwapSides(lt, table, lo, i, j, up, x);
      }
      SwapAgain(start, table, i, j, lo, up);
      SwapItems(table, i, j);
      hide Perm, LowSide, HighSide, Swapped;
      Set2(i, j);
    }

    /** The first inner loop of `partition`: repeat ++i while a[i] < P. */
    method ScanUp(lo: nat, from: nat, up: nat, x: Value, ghost ordered: bool, ghost lt: Order)
        returns (r: Result, i: nat)
      requires 1 <= lo <= from < up - 1 < |table| && Item(table, up - 1) == x
      requires ordered ==> StrictWeak(lt) && Follows(cmp, lt) && LowSide(lt, table, lo, from, x)
      modifies this`calls
      ensures from < i <= up - 1
      ensures ordered ==> r.Done? && !Less(lt, Item(table, i), x) && LowSide(lt, table, lo, i - 1, x)
    {
      i := from + 1;
      var c := SortComp(Item(table, i), x);
      while c.Yes?
        invariant from < i <= up - 1
        invariant ordered ==> c == if Less(lt, Item(table, i), x) then Yes else No
        invariant ordered ==> LowSide(lt, table, lo, i - 1, x)
        decreases up - i
      {
        if i == up - 1 {
          return InvalidOrder, i;
        }
        i := i + 1;
        c := SortComp(Item(table, i), x);
      }
      r := if c.Raise? then Raised else Done;
    }

    /** The second inner loop of `partition`: repeat --j while P < a[j]. */
    method ScanDown(lo: nat, i: nat, from: nat, up: nat, x: Value, ghost ordered: bool, ghost lt: Order)
        returns (r: Result, j: nat)
      requires 1 <= lo < i <= |table| && lo < from <= up <= |table|
      requires ordered ==> StrictWeak(lt) && Follows(cmp, lt)
      requires ordered ==> LowSide(lt, table, lo, i - 1, x) && HighSide(lt, table, from, up, x)
      modifies this`calls
      ensures lo <= j < from
      ensures ordered ==> r.Done? && !Less(lt, x, Item(table, j)) && HighSide(lt, table, j + 1, up, x)
    {
      j := from - 1;
      var c := SortComp(x, Item(table, j));
      while c.Yes?
        invariant lo <= j < from
        invariant ordered ==> c == if Less(lt, x, Item(table, j)) then Yes else No
        invariant ordered ==> HighSide(lt, table, j + 1, up, x)
        decreases j
      {
        if j < i {
          return InvalidOrder, j;
        }
        j := j - 1;
        c := SortComp(x, Item(table, j));
      }
      r := if c.Raise? then Raised else Done;
    }

    /** The first part of `auxsort`: the values at `lo`, the middle and `up` put in order. */
    method SortThree(lo: nat, p: nat, up: nat, ghost ordered: bool, ghost lt: Order) returns (r: Result)
      requires 1 <= lo < p < up <= |table|
      requires ordered ==> StrictWeak(lt) && Follows(cmp, lt) && !Less(lt, Item(table, up), Item(table, lo))
      modifies this
      ensures |table| == |old(table)| && Perm(old(table), table, lo, up)
      ensures ordered ==> r.Done? && !Less(lt, Item(table, p), Item(table, lo)) && !Less(lt, Item(table, up), Item(table, p))
    {
      ghost var was := table;
      PermRefl(table, lo, up);
      var c := SortComp(Item(table, p), Item(table, lo));
      if c.Raise? {
        return Raised;
      }
      if c.Yes? {
        Set2(p, lo);
        SwapPerm(was, p, lo, lo, up);
      } else {
        c := SortComp(Item(table, up), Item(table, p));
        if c.Raise? {
          return Raised;
        }
        if c.Yes? {
          Set2(p, up);
          SwapPerm(was, p, up, lo, up);
        }
      }
      r := Done;
    }

    /** `auxsort`. Whatever the comparison function answers, it ends, touches only the places `lo` to `up`, and leaves
        their values there in some order; under a strict weak order it raises no error and sorts them. Of the intervals
        on either side of a pivot only the smaller is sorted by a recursive call, so calls nest at most `levels` deep,
        the logarithm of the size of the interval: each call gets one level less. */
    method AuxSort(lo0: nat, up0: nat, rnd0: nat, ghost levels: nat, ghost ordered: bool, ghost lt: Order)
        returns (r: Result)
      requires 1 <= lo0 <= up0 <= |table| < INT_MAX
      requires levels >= 1 && up0 - lo0 + 1 < 2 * Pow2(levels)
      requires ordered ==> StrictWeak(lt) && Follows(cmp, lt)
      modifies this
      ensures |table| == |old(table)| && Perm(old(table), table, lo0, up0)
      ensures ordered ==> r.Done? && Sorted(lt, table, lo0, up0)
      decreases levels
    {
      hide Perm, StrictWeak, Follows, SortedBut, Sorted, Parted, Item, Pow2;
      ghost var start := table;
      PermRefl(table, lo0, up0);
      NothingSorted(lt, table, lo0, up0);
      var lo, up, rnd := lo0, up0, rnd0;
      while lo < up
        invariant lo0 <= lo <= up <= up0 && |table| == |start|
        invariant Perm(start, table, lo0, up0)
        invariant ordered ==> SortedBut(lt, table, lo0, up0, lo, up)
        decreases up - lo
      {
        ghost var was := table;
        var p;
        r, p := Split(lo, up, rnd, ordered, lt);
        ghost var parted := table;
        AfterSplit(start, was, parted, lo0, up0, lo, up, ordered, lt);
        if !r.Done? {
          return;
        }
        if p == 0 {
          if ordered {
            WholeSorted(lt, table, lo0, up0, lo, up);
          }
          return;
        }
        var lower := p - lo < up - p;
        var a, b := lo, p - 1;
        if !lower {
          a, b := p + 1, up;
        }
        Halves(b - a + 1, up0 - lo0 + 1, levels);
        r := AuxSort(a, b, rnd, levels - 1, ordered, lt);
        AfterSide(start, parted, table, lo0, up0, lo, p, up, lower, ordered, lt);
        if !r.Done? {
          return;
        }
        var n := b - a + 1;
        if lower {
          lo := p + 1;
        } else {
          up := p - 1;
        }
        if (up - lo) / 128 > n {
          rnd := *;
        }
      }
      if ordered {
        PointSorted(lt, table, lo);
        WholeSorted(lt, table, lo0, up0, lo, up);
      }
      r := Done;
    }

    /** The place the pivot is taken from. The sum of the bounds does not wrap around in 32 bits. */
    method PivotPlace(lo: nat, up: nat, rnd: nat) returns (p: nat)
      requires 1 <= lo && lo + 2 <= up < INT_MAX
      ensures lo < p < up && (up - lo == 2 ==> p == lo + 1)
      ensures up - lo < 100 || rnd == 0 ==> p == (lo + up) / 2
      ensures up - lo >= 100 && rnd != 0 ==> p == lo + (up - lo) / 4 + rnd % ((up - lo) / 4 * 2)
    {
      assert lo + up < 0x1_0000_0000;
      if up - lo < RANLIMIT || rnd == 0 {
        p := (lo + up) / 2;
      } else {
        p := ChoosePivot(lo, up, rnd);
      }
    }

    /** The values at `lo` and `up` put in order. */
    method SortEnds(lo: nat, up: nat, ghost ordered: bool, ghost lt: Order) returns (r: Result)
      requires 1 <= lo < up <= |table|
      requires ordered ==> StrictWeak(lt) && Follows(cmp, lt)
      modifies this
      ensures |table| == |old(table)| && Perm(old(table), table, lo, up)
      ensures ordered ==> r.Done? && !Less(lt, Item(table, up), Item(table, lo))
    {
      PermRefl(table, lo, up);
      SwapPerm(table, lo, up, lo, up);
      var c := SortComp(Item(table, up), Item(table, lo));
      if c.Raise? {
        return Raised;
      }
      if c.Yes? {
        Set2(lo, up);
      }
      r := Done;
    }

    /** The pivot, at `m`, exchanged with the value before the last. */
    method SetAside(lo: nat, m: nat, up: nat, ghost ordered: bool, ghost lt: Order) returns (x: Value)
      requires 1 <= lo < m < up <= |table| && lo + 3 <= up
      requires ordered ==> !Less(lt, Item(table, m), Item(table, lo)) && !Less(lt, Item(table, up), Item(table, m))
      modifies this`table
      ensures |table| == |old(table)| && Perm(old(table), table, lo, up) && Item(table, up - 1) == x
      ensures ordered ==> !Less(lt, x, Item(table, lo)) && !Less(lt, Item(table, up), x)
    {
      hide Perm;
      x := Item(table, m);
      SwapPerm(table, m, up - 1, lo, up);
      Set2(m, up - 1);
    }

    /** One turn of the loop of `auxsort` up to the recursive call: the place of the pivot, or 0 when the interval is so
        small that it is sorted already. */
    method Split(lo: nat, up: nat, rnd: nat, ghost ordered: bool, ghost lt: Order) returns (r: Result, p: nat)
      requires 1 <= lo < up <= |table| < INT_MAX
      requires ordered ==> StrictWeak(lt) && Follows(cmp, lt)
      modifies this
      ensures |table| == |old(table)| && Perm(old(table), table, lo, up)
      ensures r.Done? ==> p == 0 || (lo < p < up && lo + 3 <= up)
      ensures ordered ==> r.Done? && if p == 0 then Sorted(lt, table, lo, up) else Parted(lt, table, lo, p, up)
    {
      hide Perm, StrictWeak, Follows, Sorted, Parted, Item;
      ghost var start := table;
      p := 0;
      r := SortEnds(lo, up, ordered, lt);
      if !r.Done? {
        return;
      }
      if up - lo == 1 {
        if ordered {
          TwoSorted(lt, table, lo);
        }
        return;
      }
      var m := PivotPlace(lo, up, rnd);
      ghost var was := table;
      r := SortThree(lo, m, up, ordered, lt);
      PermTrans(start, was, table, lo, up);
      if !r.Done? {
        return;
      }
      if up - lo == 2 {
        if ordered {
          ThreeSorted(lt, table, lo);
        }
        return;
      }
      was := table;
      var x := SetAside(lo, m, up, ordered, lt);
      PermTrans(start, was, table, lo, up);
      was := table;
      r, p := Partition(lo, up, x, ordered, lt);
      PermTrans(start, was, table, lo, up);
    }

    /** `sort` on a table of length `n`; calls of `auxsort` nest at most `depth` deep. */
    method Sort(ghost ordered: bool, ghost lt: Order) returns (ok: bool, r: Result, ghost depth: nat)
      requires ordered ==> StrictWeak(lt) && Follows(cmp, lt)
      modifies this
      ensures multiset(table) == multiset(old(table)) && |table| == |old(table)|
      ensures ok <==> |table| < 0x7FFF_FFFF || |table| <= 1
      ensures !ok ==> table == old(table)
      ensures ok && ordered ==> r.Done? && Sorted(lt, table, 1, |table|)
      ensures |table| > 1 ==> Pow2(depth) <= |table|
      ensures ok && |table| > 1 ==> |table| < 2 * Pow2(depth)
    {
      ok, r, depth := true, Done, 0;
      if |table| > 1 {
        if |table| >= INT_MAX {
          return false, Done, 0;
        }
        ghost var was := table;
        depth := Log2(|table|);
        r := AuxSort(1, |table|, 0, depth, ordered, lt);
        assert was[0..|was|] == was && table[0..|table|] == table;
      }
    }
  }

  lemma AfterSplit(start: seq<Value>, was: seq<Value>, now: seq<Value>, lo0: nat, up0: nat, lo: nat, up: nat,
                   ordered: bool, lt: Order)
    requires 1 <= lo0 <= lo <= up <= up0 <= |start| && |was| == |start| && Perm(start, was, lo0, up0) && Perm(was, now, lo, up)
    requires ordered ==> SortedBut(lt, was, lo0, up0, lo, up)
    ensures |now| == |start| && Perm(start, now, lo0, up0)
    ensures ordered ==> SortedBut(lt, now, lo0, up0, lo, up)
  {
    PermWider(was, now, lo, up, lo0, up0);
    PermTrans(start, was, now, lo0, up0);
    if ordered {
      SortedButPerm(lt, was, now, lo0, up0, lo, up);
    }
  }

  lemma AfterSide(start: seq<Value>, parted: seq<Value>, now: seq<Value>, lo0: nat, up0: nat, lo: nat, p: nat, up: nat,
                  lower: bool, ordered: bool, lt: Order)
    requires 1 <= lo0 <= lo < p < up <= up0 <= |start| && |parted| == |start| && Perm(start, parted, lo0, up0)
    requires if lower then Perm(parted, now, lo, p - 1) else Perm(parted, now, p + 1, up)
    ensures |now| == |start| && Perm(start, now, lo0, up0)
    ensures ordered && StrictWeak(lt) && SortedBut(lt, parted, lo0, up0, lo, up) && Parted(lt, parted, lo, p, up)
            && (if lower then Sorted(lt, now, lo, p - 1) else Sorted(lt, now, p + 1, up)) ==>
              if lower then SortedBut(lt, now, lo0, up0, p + 1, up) else SortedBut(lt, now, lo0, up0, lo, p - 1)
  {
    var from, to := if lower then lo else p + 1, if lower then p - 1 else up;
    AfterSplit(start, parted, now, lo0, up0, from, to, false, lt);
    if ordered && StrictWeak(lt) && SortedBut(lt, parted, lo0, up0, lo, up) && Parted(lt, parted, lo, p, up)
       && (if lower then Sorted(lt, now, lo, p - 1) else Sorted(lt, now, p + 1, up)) {
      PermWider(parted, now, from, to, lo, up);
      SortedButPerm(lt, parted, now, lo0, up0, lo, up);
      PartedPerm(lt, parted, now, lo, p, up, from, to);
      hide Perm, Parted, SortedBut, StrictWeak, Sorted;
      SideDone(lt, now, lo0, up0, lo, p, up, lower);
    }
  }

  /** A recursive call gets less than half of the interval. */
  lemma Halves(n: nat, size: nat, levels: nat)
    requires 2 * n + 1 <= size && 4 <= size < 2 * Pow2(levels) && levels >= 1
    ensures levels >= 2 && n < 2 * Pow2(levels - 1)
  {
    assert Pow2(1) == 2;
  }

  lemma PointSorted(lt: Order, a: seq<Value>, lo: nat)
    requires 1 <= lo <= |a|
    ensures Sorted(lt, a, lo, lo)
  {
  }

  lemma TwoSorted(lt: Order, a: seq<Value>, lo: nat)
    requires 1 <= lo && lo + 1 <= |a| && !Less(lt, Item(a, lo + 1), Item(a, lo))
    ensures Sorted(lt, a, lo, lo + 1)
  {
  }

  lemma ThreeSorted(lt: Order, a: seq<Value>, lo: nat)
    requires StrictWeak(lt) && 1 <= lo && lo + 2 <= |a|
    requires !Less(lt, Item(a, lo + 1), Item(a, lo)) && !Less(lt, Item(a, lo + 2), Item(a, lo + 1))
    ensures Sorted(lt, a, lo, lo + 2)
  {
    assert !Less(lt, Item(a, lo + 2), Item(a, lo));
  }

  lemma WholeSorted(lt: Order, a: seq<Value>, lo: nat, up: nat, from: nat, to: nat)
    requires 1 <= lo <= from <= to <= up <= |a| && SortedBut(lt, a, lo, up, from, to) && Sorted(lt, a, from, to)
    ensures Sorted(lt, a, lo, up)
  {
  }
}
