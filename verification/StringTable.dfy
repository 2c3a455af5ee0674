/** The table of short strings of lstring.c: chains of strings by hash, rehashed in place. */
module StringTable {
  import opened Wrappers

  /** A string object; 0 is NULL. */
  type Ref = int

  const MINSTRTABSIZE := 128
  const MAX_INT := 0x7FFF_FFFF
  const MAXSTRTB := 0x7FFF_FFFF

  // ----- hashing -----

  /** `luaS_hash` when the bytes from `l` on have been mixed in. */
  function Mix(str: seq<Byte>, l: nat, h: bv32): bv32
    requires l <= |str|
    decreases l
  {
    if l == 0 then h else Mix(str, l - 1, h ^ ((h << 5) + (h >> 2) + (str[l - 1] as bv32)))
  }

  function Hash(str: seq<Byte>, seed: bv32): nat {
    Mix(str, |str|, seed ^ ((|str| % 0x1_0000_0000) as bv32)) as nat
  }

  /** `luaS_hash` */
  method ComputeHash(str: seq<Byte>, seed: bv32) returns (r: nat)
    ensures r == Hash(str, seed)
  {
    var h := seed ^ ((|str| % 0x1_0000_0000) as bv32);
    var l := |str|;
    while l > 0
      invariant 0 <= l <= |str|
      invariant Mix(str, l, h) == Mix(str, |str|, seed ^ ((|str| % 0x1_0000_0000) as bv32))
    {
      h := h ^ ((h << 5) + (h >> 2) + (str[l - 1] as bv32));
      l := l - 1;
    }
    r := h as nat;
  }

  ghost predicate PowerOf2(n: nat) {
    n == 1 || (n > 1 && n % 2 == 0 && PowerOf2(n / 2))
  }

  // ----- chains -----

  /** `hnext` leads from `head` through the strings of `chain` to NULL. */
  ghost predicate Linked(head: Ref, hnext: map<Ref, Ref>, chain: seq<Ref>)
    decreases |chain|
  {
    if chain == [] then head == 0
    else head == chain[0] && head != 0 && head in hnext && Linked(hnext[head], hnext, chain[1..])
  }

  ghost predicate NoDup(chain: seq<Ref>) {
    forall i, j :: 0 <= i < j < |chain| ==> chain[i] != chain[j]
  }

  /** Each head has its chain; `at` says in which chain a string is, and it is there once. */
  ghost predicate Chained(heads: seq<Ref>, hnext: map<Ref, Ref>, chains: seq<seq<Ref>>, at: map<Ref, int>) {
    && |chains| == |heads|
    && (forall b :: 0 <= b < |chains| ==> Linked(heads[b], hnext, chains[b]) && NoDup(chains[b]))
    && (forall b, s :: 0 <= b < |chains| && s in chains[b] ==> s in at && at[s] == b)
    && (forall s :: s in at ==> s != 0 && 0 <= at[s] < |chains| && s in chains[at[s]])
  }

  lemma {:induction false} LinkedFrame(head: Ref, hnext: map<Ref, Ref>, chain: seq<Ref>, p: Ref, v: Ref)
    requires Linked(head, hnext, chain) && p !in chain
    ensures Linked(head, hnext[p := v], chain)
    decreases |chain|
  {
    if chain != [] {
      LinkedFrame(hnext[head], hnext, chain[1..], p, v);
    }
  }

  /** The head of one chain becomes the head of another. */
  lemma MoveHead(heads: seq<Ref>, hnext: map<Ref, Ref>, chains: seq<seq<Ref>>, at: map<Ref, int>, from: nat, to: nat)
    requires Chained(heads, hnext, chains, at) && from < |heads| && to < |heads| && from != to && heads[from] != 0
    ensures chains[from] != [] && heads[from] in hnext && heads[from] in at && at[heads[from]] == from
    ensures var p := heads[from];
            Chained(heads[from := hnext[p]][to := p], hnext[p := heads[to]],
                    chains[from := chains[from][1..]][to := [p] + chains[to]], at[p := to])
  {
    var p := heads[from];
    assert Linked(heads[from], hnext, chains[from]);
    assert p == chains[from][0];
    assert p in chains[from];
    assert p in at && at[p] == from;
    assert forall b :: 0 <= b < |chains| && b != from ==> p !in chains[b];
    var chains' := chains[from := chains[from][1..]][to := [p] + chains[to]];
    var heads' := heads[from := hnext[p]][to := p];
    var hnext' := hnext[p := heads[to]];
    var at' := at[p := to];
    assert p !in chains[from][1..] by {
      assert forall k :: 0 <= k < |chains[from][1..]| ==> chains[from][1..][k] == chains[from][k + 1];
    }
    LinkedFrame(heads[to], hnext, chains[to], p, heads[to]);
    LinkedFrame(hnext[p], hnext, chains[from][1..], p, heads[to]);
    forall b | 0 <= b < |chains'| ensures Linked(heads'[b], hnext', chains'[b]) && NoDup(chains'[b]) {
      if b == to {
        assert chains'[b][1..] == chains[to];
      } else if b != from {
        LinkedFrame(heads[b], hnext, chains[b], p, heads[to]);
      }
    }
    forall b, s | 0 <= b < |chains'| && s in chains'[b] ensures s in at' && at'[s] == b {
      if b == from {
        assert s in chains[from];
      }
    }
    forall s | s in at' ensures s != 0 && 0 <= at'[s] < |chains'| && s in chains'[at'[s]] {
      if s != p && at[s] == from {
        var k :| 0 <= k < |chains[from]| && chains[from][k] == s;
        assert chains[from][1..][k - 1] == s;
      }
    }
  }

  /** One bucket emptied and its chain held apart, after the last. */
  lemma Detach(heads: seq<Ref>, hnext: map<Ref, Ref>, chains: seq<seq<Ref>>, at: map<Ref, int>, i: nat)
    requires Chained(heads, hnext, chains, at) && i < |heads|
    ensures Chained(heads[i := 0] + [heads[i]], hnext, chains[i := []] + [chains[i]],
                    map s | s in at :: if at[s] == i then |heads| else at[s])
  {
    var chains' := chains[i := []] + [chains[i]];
    assert Linked(0, hnext, []);
    assert forall b :: 0 <= b < |chains| && b != i ==> chains'[b] == chains[b];
  }

  /** The chain held apart is used up. */
  lemma Attach(heads: seq<Ref>, hnext: map<Ref, Ref>, chains: seq<seq<Ref>>, at: map<Ref, int>)
    requires Chained(heads, hnext, chains, at) && heads != [] && heads[|heads| - 1] == 0
    ensures Chained(heads[..|heads| - 1], hnext, chains[..|heads| - 1], at)
  {
    var n := |heads| - 1;
    assert Linked(heads[n], hnext, chains[n]);
    assert chains[n] == [];
  }

  /** Empty buckets added at the end, or taken away there. */
  lemma Resized(heads: seq<Ref>, hnext: map<Ref, Ref>, chains: seq<seq<Ref>>, at: map<Ref, int>, n: nat)
    requires Chained(heads, hnext, chains, at)
    requires n < |heads| ==> forall b :: n <= b < |heads| ==> heads[b] == 0
    ensures n <= |heads| ==> Chained(heads[..n], hnext, chains[..n], at)
    ensures n >= |heads| ==> Chained(heads + seq(n - |heads|, _ => 0), hnext, chains + seq(n - |heads|, _ => []), at)
  {
    if n <= |heads| {
      forall s | s in at ensures at[s] < n {
        assert Linked(heads[at[s]], hnext, chains[at[s]]);
      }
    } else {
      var chains' := chains + seq(n - |heads|, _ => []);
      assert forall b :: |heads| <= b < n ==> chains'[b] == [];
      assert Linked(0, hnext, []);
    }
  }

  ghost predicate Known(live: set<Ref>, content: map<Ref, seq<Byte>>, hashOf: map<Ref, int>, born: Ref, seed: bv32) {
    && (forall s :: s in live ==> s in content && s in hashOf && hashOf[s] == Hash(content[s], seed) && 0 < s < born)
    && (forall s, t :: s in live && t in live && content[s] == content[t] ==> s == t)
    && born > 0
  }

  ghost predicate Placed(at: map<Ref, int>, hashOf: map<Ref, int>, n: nat)
    requires n > 0
  {
    forall s :: s in at && s in hashOf ==> at[s] == hashOf[s] % n
  }

  /** While bucket `i` is rehashed, its strings are apart, in bucket `n`, or where `nsize` puts them. */
  ghost predicate Halfway(at: map<Ref, int>, live: set<Ref>, hashOf: map<Ref, int>, i: int, osize: int, nsize: int, n: int)
    requires nsize > 0
  {
    && (forall s :: s in at <==> s in live)
    && forall s :: s in at ==> s in hashOf && (at[s] == n || (i < at[s] < osize) || at[s] == hashOf[s] % nsize)
  }

  lemma HalfwayStart(at: map<Ref, int>, live: set<Ref>, hashOf: map<Ref, int>, i: int, osize: int, nsize: int, n: int)
    requires nsize > 0 && (forall s :: s in at <==> s in live)
    requires forall s :: s in at ==> s in hashOf && ((i <= at[s] < osize) || at[s] == hashOf[s] % nsize)
    ensures Halfway(map s | s in at :: if at[s] == i then n else at[s], live, hashOf, i, osize, nsize, n)
  {
  }

  lemma HalfwayOn(at: map<Ref, int>, live: set<Ref>, hashOf: map<Ref, int>, i: int, osize: int, nsize: int, n: int)
    requires nsize > 0 && Halfway(at, live, hashOf, i, osize, nsize, n)
    ensures (forall s :: s in at <==> s in live) && forall s :: s in at ==> s in hashOf
    ensures forall p :: p in live && p in hashOf ==> Halfway(at[p := hashOf[p] % nsize], live, hashOf, i, osize, nsize, n)
  {
  }

  lemma HalfwayDone(at: map<Ref, int>, live: set<Ref>, hashOf: map<Ref, int>, i: int, osize: int, nsize: int, n: int)
    requires nsize > 0 && Halfway(at, live, hashOf, i, osize, nsize, n) && forall s :: s in at ==> at[s] < n
    ensures (forall s :: s in at <==> s in live)
    ensures forall s :: s in at ==> s in hashOf && ((i + 1 <= at[s] < osize) || at[s] == hashOf[s] % nsize)
  {
  }

  lemma KnownMore(live: set<Ref>, content: map<Ref, seq<Byte>>, hashOf: map<Ref, int>, born: Ref, seed: bv32, str: seq<Byte>, h: nat)
    requires Known(live, content, hashOf, born, seed) && h == Hash(str, seed)
    requires forall s :: s in live && s in content ==> content[s] != str
    ensures born !in live && born != 0
    ensures Known(live + {born}, content[born := str], hashOf[born := h], born + 1, seed)
    ensures forall s :: s in live ==> s in content && s != born
  {
    hide Hash;
  }

  lemma KnownLess(live: set<Ref>, content: map<Ref, seq<Byte>>, hashOf: map<Ref, int>, born: Ref, seed: bv32, ts: Ref)
    requires Known(live, content, hashOf, born, seed)
    ensures Known(live - {ts}, content, hashOf, born, seed)
  {
    hide Hash;
  }

  lemma PlacedMore(at: map<Ref, int>, hashOf: map<Ref, int>, n: nat, ts: Ref, h: nat)
    requires n > 0 && Placed(at, hashOf, n)
    ensures Placed(at[ts := h % n], hashOf[ts := h], n) && Placed(at - {ts}, hashOf, n)
  {
  }

  class StringTableState {
    const seed: bv32
    /** `tb->hash`, `tb->size` and `tb->nuse` */
    var hash: seq<Ref>
    var size: nat
    var nuse: nat
    /** `u.hnext`, the contents and the stored hash of the string objects ever created. */
    var hnext: map<Ref, Ref>
    var content: map<Ref, seq<Byte>>
    var hashOf: map<Ref, int>
    var born: Ref
    ghost var chains: seq<seq<Ref>>
    ghost var at: map<Ref, int>
    /** The strings in the table. */
    ghost var live: set<Ref>

    ghost predicate Chains()
      reads this
    {
      Chained(hash, hnext, chains, at) && forall s :: s in at <==> s in live
    }

    /** Strings have the hash of their contents, and no two strings in the table have the same contents. */
    ghost predicate Interned()
      reads this
    {
      Known(live, content, hashOf, born, seed) && nuse == |live|
    }

    /** Every string is in the bucket of its hash. */
    ghost predicate InPlace(n: nat)
      requires n > 0
      reads this
    {
      Placed(at, hashOf, n)
    }

    ghost predicate Valid()
      reads this
    {
      Chains() && Interned() && |hash| == size && PowerOf2(size) && size > 0 && InPlace(size)
    }

    /** `luaS_init` */
    constructor (seed: bv32)
      ensures Valid() && live == {} && this.seed == seed && size == 128
    {
      this.seed := seed;
      hash, size, nuse := seq(MINSTRTABSIZE, _ => 0), MINSTRTABSIZE, 0;
      hnext, content, hashOf, born := map[], map[], map[], 1;
      chains, at, live := seq(MINSTRTABSIZE, _ => []), map[], {};
      new;
      assert PowerOf2(128) by { assert PowerOf2(64) by { assert PowerOf2(32) by { assert PowerOf2(16); } } }
    }

    /** One string of the list being rehashed, from its head `p` to its new bucket. */
    method Rehang(p: Ref, nsize: nat) returns (next: Ref)
      requires p != 0 && 0 < nsize <= |hash| && Chained(hash + [p], hnext, chains, at)
      requires forall s :: s in at <==> s in live
      requires forall s :: s in at ==> s in hashOf
      modifies this`hash, this`hnext, this`chains, this`at
      ensures |hash| == old(|hash|) && Chained(hash + [next], hnext, chains, at)
      ensures forall s :: s in at <==> s in live
      ensures p in live && at == old(at)[p := hashOf[p] % nsize]
      ensures |old(chains)| == |chains| == |hash| + 1 && |chains[|hash|]| < |old(chains)[|hash|]|
    {
      ghost var heads: seq<Ref> := hash + [p];
      ghost var n := |hash|;
      LastHead(hash, p, hnext, chains, at);
      hide Chained, Linked, NoDup;
      next := hnext[p];
      var h := hashOf[p] % nsize;
      MoveHead(heads, hnext, chains, at, n, h);
      hnext := hnext[p := hash[h]];
      hash := hash[h := p];
      chains := chains[n := chains[n][1..]][h := [p] + chains[h]];
      at := at[p := h];
      assert hash + [next] == heads[n := next][h := p];
    }

    /** One turn of the loop of `tablerehash`: the chain of bucket `i` is taken off and hung again. */
    method RehashBucket(i: nat, osize: nat, nsize: nat)
      requires i < osize <= |hash| && 0 < nsize <= |hash| && Chains()
      requires forall s :: s in at ==> s in hashOf && ((i <= at[s] < osize) || at[s] == hashOf[s] % nsize)
      modifies this`hash, this`hnext, this`chains, this`at
      ensures |hash| == old(|hash|) && Chains()
      ensures forall s :: s in at ==> (i + 1 <= at[s] < osize) || at[s] == hashOf[s] % nsize
    {
      hide Linked, NoDup, Halfway;
      var p := hash[i];
      ghost var n := |hash|;
      Detach(hash, hnext, chains, at, i);
      assert |chains| == n;
      HalfwayStart(at, live, hashOf, i, osize, nsize, n);
      hide Chained;
      hash := hash[i := 0];
      at := map s | s in at :: if at[s] == i then n else at[s];
      chains := chains[i := []] + [chains[i]];
      while p != 0
        invariant |hash| == n && Chained(hash + [p], hnext, chains, at) && |chains| == n + 1
        invariant Halfway(at, live, hashOf, i, osize, nsize, n)
        decreases |chains[n]|
      {
        HalfwayOn(at, live, hashOf, i, osize, nsize, n);
        p := Rehang(p, nsize);
      }
      AllGone(hash, hnext, chains, at);
      HalfwayDone(at, live, hashOf, i, osize, nsize, n);
      Attach(hash + [0], hnext, chains, at);
      assert (hash + [0])[..n] == hash;
      chains := chains[..n];
    }

    /** `tablerehash`: every string in the first `osize` buckets goes where `nsize` puts it. */
    method TableRehash(osize: nat, nsize: nat)
      requires 0 < osize <= |hash| && 0 < nsize <= |hash| && Chains()
      requires forall s :: s in at ==> s in hashOf && at[s] < osize
      modifies this`hash, this`hnext, this`chains, this`at
      ensures |hash| == old(|hash|) && Chains() && InPlace(nsize)
    {
      assert forall s :: s in at ==> 0 <= at[s];
      hide Chained;
      var i := 0;
      while i < osize
        invariant 0 <= i <= osize && |hash| == old(|hash|) && Chains()
        invariant forall s :: s in at ==> s in hashOf && ((i <= at[s] < osize) || at[s] == hashOf[s] % nsize)
      {
        RehashBucket(i, osize, nsize);
        i := i + 1;
      }
    }

    /** `luaS_resize`; `enoughMemory` says whether the reallocation succeeded. */
    method Resize(nsize: nat, enoughMemory: bool)
      requires Valid() && PowerOf2(nsize) && nsize > 0
      modifies this`hash, this`size, this`hnext, this`chains, this`at
      ensures Valid() && size == if enoughMemory then nsize else old(size)
    {
      hide Hash, PowerOf2, Chained, Placed, Known;
      BucketsInside();
      var osize := size;
      if nsize < osize {
        TableRehash(osize, nsize);
        if enoughMemory {
          PlacedInside(nsize);
          Truncate(nsize);
          size := nsize;
        } else {
          PlacedInside(nsize);
          TableRehash(nsize, osize);
        }
      } else if enoughMemory {
        Extend(nsize);
        size := nsize;
        if nsize > osize {
          TableRehash(osize, nsize);
        }
      }
    }

    lemma BucketsInside()
      requires Chains() && Interned()
      ensures forall s :: s in at ==> s in hashOf && 0 <= at[s] < |hash|
    {
    }

    lemma PlacedInside(n: nat)
      requires n > 0 && InPlace(n) && Chains() && Interned()
      ensures forall s :: s in at ==> s in hashOf && at[s] < n
    {
    }

    /** The upper part of the array given back. */
    method Truncate(nsize: nat)
      requires Chains() && nsize <= |hash| && forall s :: s in at ==> at[s] < nsize
      modifies this`hash, this`chains
      ensures Chains() && |hash| == nsize
    {
      EmptyAbove(hash, hnext, chains, at, nsize);
      Resized(hash, hnext, chains, at, nsize);
      hide Chained;
      hash := hash[..nsize];
      chains := chains[..nsize];
    }

    /** More buckets, which `tablerehash` clears first. */
    method Extend(nsize: nat)
      requires Chains() && nsize >= |hash|
      modifies this`hash, this`chains
      ensures Chains() && |hash| == nsize
    {
      Resized(hash, hnext, chains, at, nsize);
      hide Chained;
      var more := nsize - |hash|;
      hash := hash + seq(more, _ => 0);
      chains := chains + seq(more, _ => []);
    }

    /** Follow the chain of `ts` up to it. `prev` is 0 when `ts` is the first. */
    method FindPrevious(ts: Ref) returns (b: nat, prev: Ref, ghost k: nat)
      requires Valid() && ts in live
      ensures b < size && b < |chains| && k < |chains[b]| && chains[b][k] == ts
      ensures if k == 0 then prev == 0 else prev == chains[b][k - 1] && prev != 0
    {
      hide Hash, PowerOf2;
      b := hashOf[ts] % size;
      assert ts in chains[b];
      prev := 0;
      var cur := hash[b];
      k := 0;
      ghost var chain := chains[b];
      assert chain[0..] == chain;
      while cur != ts
        invariant 0 <= k < |chain| && Linked(cur, hnext, chain[k..]) && ts in chain[k..]
        invariant if k == 0 then prev == 0 else prev == chain[k - 1] && prev != 0
        decreases |chain| - k
      {
        prev := cur;
        cur := hnext[cur];
        assert chain[k..][1..] == chain[k + 1..];
        k := k + 1;
      }
      assert chain[k..][0] == ts;
    }

    /** `luaS_remove` */
    method Remove(ts: Ref)
      requires Valid() && ts in live
      modifies this`hash, this`hnext, this`nuse, this`chains, this`at, this`live
      ensures Valid() && live == old(live) - {ts}
    {
      ghost var k;
      var b, prev;
      hide Hash, PowerOf2, Chained, Linked, NoDup, Known, Placed;
      b, prev, k := FindPrevious(ts);
      Unlinked(hash, hnext, chains, at, b, k);
      KnownLess(live, content, hashOf, born, seed, ts);
      PlacedMore(at, hashOf, size, ts, 0);
      if prev == 0 {
        hash := hash[b := hnext[ts]];
      } else {
        hnext := hnext[prev := hnext[ts]];
      }
      chains := chains[b := chains[b][..k] + chains[b][k + 1..]];
      at := at - {ts};
      live := live - {ts};
      nuse := nuse - 1;
    }

    /** The search of `internshrstr` along one chain. */
    method Find(str: seq<Byte>, h: nat) returns (ts: Ref)
      requires Valid() && h == Hash(str, seed)
      ensures ts != 0 ==> ts in live && content[ts] == str
      ensures ts == 0 ==> forall s :: s in live ==> content[s] != str
    {
      hide Hash, PowerOf2;
      var b := h % size;
      ts := hash[b];
      ghost var chain := chains[b];
      ghost var k := 0;
      assert chain[0..] == chain;
      while ts != 0
        invariant 0 <= k <= |chain| && Linked(ts, hnext, chain[k..])
        invariant forall i :: 0 <= i < k ==> content[chain[i]] != str
        decreases |chain| - k
      {
        assert chain[k..][0] == ts && ts in chain;
        if content[ts] == str {
          return;
        }
        ts := hnext[ts];
        assert chain[k..][1..] == chain[k + 1..];
        k := k + 1;
      }
      assert chain[k..] == [];
      forall s | s in live ensures content[s] != str {
        assert s in chains[at[s]];
        assert hashOf[s] == Hash(content[s], seed);
      }
    }

    /** A new string put in front of its chain. */
    method Create(str: seq<Byte>, h: nat) returns (ts: Ref)
      requires Valid() && h == Hash(str, seed) && forall s :: s in live ==> content[s] != str
      modifies this`hash, this`hnext, this`nuse, this`content, this`hashOf, this`born, this`chains, this`at, this`live
      ensures Valid() && ts !in old(live) && live == old(live) + {ts}
      ensures content == old(content)[ts := str] && forall s :: s in old(live) ==> content[s] == old(content)[s]
    {
      hide Hash, PowerOf2, Chained, Linked, NoDup, Known, Placed;
      var b := h % size;
      ts := born;
      Created(hash, hnext, chains, at, live, content, hashOf, born, seed, b, str, h);
      hnext, hash := hnext[ts := hash[b]], hash[b := ts];
      born, content, hashOf := born + 1, content[ts := str], hashOf[ts := h];
      chains, at, live, nuse := chains[b := [ts] + chains[b]], at[ts := b], live + {ts}, nuse + 1;
      assert Chains() && Interned() && InPlace(size);
    }

    lemma LiveKnown()
      requires Interned()
      ensures forall s :: s in live ==> s in content
    {
    }

    /** `growstrtab` */
    method GrowTable(enoughMemory: bool) returns (room: bool)
      requires Valid()
      modifies this`hash, this`size, this`hnext, this`chains, this`at
      ensures Valid() && (room <==> nuse != 0x7FFF_FFFF)
      ensures size == if room && old(size) <= 0x3FFF_FFFF && enoughMemory then 2 * old(size) else old(size)
    {
      hide PowerOf2, Chains, Interned, InPlace;
      if nuse == MAX_INT {
        return false;
      }
      if size <= MAXSTRTB / 2 {
        Doubled(size);
        Resize(size * 2, enoughMemory);
      }
      room := true;
    }

    /** A string with these contents is in the table. */
    ghost predicate Holds(str: seq<Byte>)
      reads this
    {
      exists s :: s in live && s in content && content[s] == str
    }

    /** `internshrstr`: the one string with these contents, created if there is none yet, whether or not there is memory
        for a larger table. It fails only when there can be no more strings. */
    method Intern(str: seq<Byte>, enoughMemory: bool) returns (r: Option<Ref>)
      requires Valid()
      modifies this
      ensures Valid()
      ensures r.Some? ==> r.value in live && r.value in content && content[r.value] == str
      ensures r.Some? ==> live == old(live) + {r.value} && (r.value in old(live) <==> old(Holds(str)))
      ensures r.None? ==> live == old(live) && nuse == 0x7FFF_FFFF && !Holds(str)
      ensures forall s :: s in old(live) && s in old(content) ==> s in live && s in content && content[s] == old(content)[s]
      ensures var full := old(nuse) >= old(size) && old(nuse) != 0x7FFF_FFFF && old(size) <= 0x3FFF_FFFF;
              size == if full && !old(Holds(str)) && enoughMemory then 2 * old(size) else old(size)
    {
      hide Hash, PowerOf2, Chained, Known, Placed;
      var h := ComputeHash(str, seed);
      var ts := Find(str, h);
      LiveKnown();
      if ts != 0 {
        return Some(ts);
      }
      if nuse >= size {
        var room := GrowTable(enoughMemory);
        if !room {
          return None;
        }
      }
      ts := Create(str, h);
      r := Some(ts);
    }
  }

  lemma Doubled(n: nat)
    requires PowerOf2(n)
    ensures PowerOf2(n * 2)
  {
    assert n * 2 / 2 == n;
  }

  /** A string that is in no chain put in front of one. */
  lemma Linking(hash: seq<Ref>, hnext: map<Ref, Ref>, chains: seq<seq<Ref>>, at: map<Ref, int>, b: nat, ts: Ref)
    requires Chained(hash, hnext, chains, at) && b < |hash| && ts != 0 && ts !in at
    ensures |chains| == |hash| && Chained(hash[b := ts], hnext[ts := hash[b]], chains[b := [ts] + chains[b]], at[ts := b])
  {
    var chains' := chains[b := [ts] + chains[b]];
    var hnext' := hnext[ts := hash[b]];
    assert forall c :: 0 <= c < |chains| ==> ts !in chains[c];
    forall c | 0 <= c < |chains'| ensures Linked(hash[b := ts][c], hnext', chains'[c]) && NoDup(chains'[c]) {
      LinkedFrame(hash[c], hnext, chains[c], ts, hash[b]);
      if c == b {
        assert chains'[b][1..] == chains[b];
      }
    }
  }

  /** A new string in front of its chain. */
  lemma Created(hash: seq<Ref>, hnext: map<Ref, Ref>, chains: seq<seq<Ref>>, at: map<Ref, int>, live: set<Ref>,
                content: map<Ref, seq<Byte>>, hashOf: map<Ref, int>, ts: Ref, seed: bv32, b: nat, str: seq<Byte>, h: nat)
    requires Chained(hash, hnext, chains, at) && Known(live, content, hashOf, ts, seed) && (forall s :: s in at <==> s in live)
    requires |hash| > 0 && Placed(at, hashOf, |hash|) && h == Hash(str, seed) && b == h % |hash|
    requires forall s :: s in live && s in content ==> content[s] != str
    ensures |chains| == |hash| && Chained(hash[b := ts], hnext[ts := hash[b]], chains[b := [ts] + chains[b]], at[ts := b])
    ensures Known(live + {ts}, content[ts := str], hashOf[ts := h], ts + 1, seed) && ts !in live
    ensures Placed(at[ts := b], hashOf[ts := h], |hash|) && |live + {ts}| == |live| + 1
    ensures forall s :: s in at[ts := b] <==> s in live + {ts}
    ensures forall s :: s in live ==> s in content && content[ts := str][s] == content[s]
  {
    hide Hash, Chained, Known, Placed;
    KnownMore(live, content, hashOf, ts, seed, str, h);
    PlacedMore(at, hashOf, |hash|, ts, h);
    Linking(hash, hnext, chains, at, b, ts);
  }

  lemma LastHead(hash: seq<Ref>, p: Ref, hnext: map<Ref, Ref>, chains: seq<seq<Ref>>, at: map<Ref, int>)
    requires Chained(hash + [p], hnext, chains, at) && p != 0
    ensures |chains| == |hash| + 1 && chains[|hash|] != [] && p in hnext && p in at && at[p] == |hash|
  {
    assert Linked((hash + [p])[|hash|], hnext, chains[|hash|]);
    assert p == chains[|hash|][0] && p in chains[|hash|];
  }

  /** When the chain held apart has no head, no string is in it. */
  lemma AllGone(hash: seq<Ref>, hnext: map<Ref, Ref>, chains: seq<seq<Ref>>, at: map<Ref, int>)
    requires Chained(hash + [0], hnext, chains, at)
    ensures forall s :: s in at ==> at[s] < |hash|
  {
    var n := |hash|;
    assert Linked((hash + [0])[n], hnext, chains[n]);
    assert chains[n] == [];
  }

  lemma HeadKnown(hash: seq<Ref>, hnext: map<Ref, Ref>, chains: seq<seq<Ref>>, at: map<Ref, int>, b: nat)
    requires Chained(hash, hnext, chains, at) && b < |hash| && hash[b] != 0
    ensures hash[b] in at && at[hash[b]] == b
  {
    assert Linked(hash[b], hnext, chains[b]);
    assert chains[b][0] in chains[b];
  }

  lemma EmptyAbove(hash: seq<Ref>, hnext: map<Ref, Ref>, chains: seq<seq<Ref>>, at: map<Ref, int>, n: nat)
    requires Chained(hash, hnext, chains, at) && forall s :: s in at ==> at[s] < n
    ensures forall b :: n <= b < |hash| ==> hash[b] == 0
  {
    forall b | n <= b < |hash| ensures hash[b] == 0 {
      if hash[b] != 0 {
        HeadKnown(hash, hnext, chains, at, b);
      }
    }
  }

  lemma {:induction false} LinkedAt(head: Ref, hnext: map<Ref, Ref>, chain: seq<Ref>, k: nat)
    requires Linked(head, hnext, chain) && k < |chain|
    ensures chain[k] != 0 && chain[k] in hnext && Linked(chain[k], hnext, chain[k..])
    ensures hnext[chain[k]] == (if k + 1 < |chain| then chain[k + 1] else 0)
    decreases k
  {
    if k > 0 {
      LinkedAt(hnext[head], hnext, chain[1..], k - 1);
      assert chain[1..][k - 1..] == chain[k..];
    } else {
      assert chain[0..] == chain;
      assert Linked(hnext[head], hnext, chain[1..]);
    }
  }

  /** A string taken out of the middle of a chain. */
  lemma {:induction false} LinkedWithout(head: Ref, hnext: map<Ref, Ref>, chain: seq<Ref>, k: nat)
    requires Linked(head, hnext, chain) && NoDup(chain) && k < |chain|
    ensures chain[k] in hnext && head == chain[0]
    ensures k == 0 ==> Linked(hnext[head], hnext, chain[1..])
    ensures k > 0 ==> Linked(head, hnext[chain[k - 1] := hnext[chain[k]]], chain[..k] + chain[k + 1..])
    decreases k
  {
    LinkedAt(head, hnext, chain, k);
    if k > 0 {
      var rest := chain[1..];
      assert forall i :: 0 <= i < |rest| ==> rest[i] == chain[i + 1];
      LinkedWithout(hnext[head], hnext, rest, k - 1);
      var out := chain[..k] + chain[k + 1..];
      if k == 1 {
        assert out[1..] == rest[1..];
        LinkedAt(head, hnext, chain, 1);
        assert hnext[head] == chain[1];
        assert Linked(hnext[chain[1]], hnext, rest[1..]);
        assert head !in rest[1..];
        LinkedFrame(hnext[chain[1]], hnext, rest[1..], head, hnext[chain[1]]);
      } else {
        assert out[1..] == rest[..k - 1] + rest[k..];
        assert chain[k - 1] == rest[k - 2] && chain[k] == rest[k - 1];
        assert chain[k - 1] != head;
      }
    }
  }

  lemma InOneChain(hash: seq<Ref>, hnext: map<Ref, Ref>, chains: seq<seq<Ref>>, at: map<Ref, int>, b: nat, c: nat, s: Ref)
    requires Chained(hash, hnext, chains, at) && b < |chains| && c < |chains| && c != b && s in chains[b]
    ensures s !in chains[c]
  {
    var i :| 0 <= i < |chains[b]| && chains[b][i] == s;
    assert chains[b][i] in chains[b] && at[s] == b;
  }

  lemma Unlinked(hash: seq<Ref>, hnext: map<Ref, Ref>, chains: seq<seq<Ref>>, at: map<Ref, int>, b: nat, k: nat)
    requires Chained(hash, hnext, chains, at) && b < |hash| && k < |chains[b]|
    ensures chains[b][k] in hnext && chains[b][k] in at
    ensures var chain := chains[b]; var ts := chain[k];
            Chained(if k == 0 then hash[b := hnext[ts]] else hash,
                    if k == 0 then hnext else hnext[chain[k - 1] := hnext[ts]],
                    chains[b := chain[..k] + chain[k + 1..]], at - {ts})
  {
    hide Linked, NoDup;
    var chain := chains[b];
    var ts := chain[k];
    assert ts in chain && at[ts] == b;
    assert Linked(hash[b], hnext, chain) && NoDup(chain);
    LinkedWithout(hash[b], hnext, chain, k);
    Without(chain, k);
    var out := chain[..k] + chain[k + 1..];
    var chains' := chains[b := out];
    var hnext' := if k == 0 then hnext else hnext[chain[k - 1] := hnext[ts]];
    var hash' := if k == 0 then hash[b := hnext[ts]] else hash;
    var at' := at - {ts};
    if k == 0 {
      assert out == chain[1..];
    }
    forall c | 0 <= c < |chains'| ensures Linked(hash'[c], hnext', chains'[c]) && NoDup(chains'[c]) {
      if c != b && k > 0 {
        InOneChain(hash, hnext, chains, at, b, c, chain[k - 1]);
        LinkedFrame(hash[c], hnext, chains[c], chain[k - 1], hnext[ts]);
      }
    }
    forall c, s | 0 <= c < |chains'| && s in chains'[c] ensures s in at' && at'[s] == c {
      assert s in chains[c];
    }
  }

  lemma Without(chain: seq<Ref>, k: nat)
    requires NoDup(chain) && k < |chain|
    ensures var out := chain[..k] + chain[k + 1..];
            NoDup(out) && chain[k] !in out && forall s :: s in out <==> s in chain && s != chain[k]
  {
    var out := chain[..k] + chain[k + 1..];
    assert forall i :: 0 <= i < |out| ==> out[i] == chain[if i < k then i else i + 1];
    forall s | s in chain && s != chain[k] ensures s in out {
      var i :| 0 <= i < |chain| && chain[i] == s;
      assert out[if i < k then i else i - 1] == s;
    }
  }
}
