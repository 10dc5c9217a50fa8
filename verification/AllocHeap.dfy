/** malloc and free of umalloc.c. */
module AllocHeap {
  import opened AllocList

  const UNIT := 16         // sizeof(Header)
  const MIN_GRANT := 4096  // units asked from sbrk at least

  predicate InLive(live: map<nat, nat>, u: nat) {
    exists a :: a in live && In(Block(a, live[a]), u)
  }

  /** Allocated blocks have their size in their header and are clear of the free list. */
  predicate LiveOk(m: Memory, live: map<nat, nat>, bs: seq<Block>) {
    forall a :: a in live ==> a in m && m[a].size == live[a] && Clear(bs, Block(a, live[a]))
  }

  predicate LiveApart(live: map<nat, nat>) {
    forall a, b :: a in live && b in live && a != b ==> Apart(Block(a, live[a]), Block(b, live[b]))
  }

  /** Free and allocated blocks together are exactly the units obtained from sbrk. */
  ghost predicate Tiles(owned: set<nat>, bs: seq<Block>, live: map<nat, nat>) {
    forall u: nat :: u in owned <==> InFree(bs, u) || InLive(live, u)
  }

  // ----- free

  /** bp takes over the free block after it, or just points at it. */
  function JoinNext(m: Memory, bp: nat, next: nat): Memory
    requires bp in m && next in m
  {
    if bp + m[bp].size == next then m[bp := Header(m[next].ptr, m[bp].size + m[next].size)]
    else m[bp := Header(next, m[bp].size)]
  }

  /** The free block p takes over bp, or just points at it. */
  function JoinPrev(m: Memory, p: nat, bp: nat): Memory
    requires p in m && bp in m
  {
    if p + m[p].size == bp then m[p := Header(m[bp].ptr, m[p].size + m[bp].size)]
    else m[p := Header(bp, m[p].size)]
  }

  lemma JoinNextOk(m: Memory, bs: seq<Block>, t: nat, b: Block)
    requires Ordered(bs) && Linked(m, bs) && Clear(bs, b) && Before(bs, t, b.addr) && b.addr in m
    requires m[b.addr].size == b.size
    ensures NextAddr(bs, t) in m
    ensures var m1 := JoinNext(m, b.addr, NextAddr(bs, t));
            var e := if TouchesNext(bs, t, b) then t + 2 else t + 1;
            && m1[b.addr].ptr == (if e < |bs| then bs[e].addr else bs[0].addr)
            && m1[b.addr].size == b.size + (if TouchesNext(bs, t, b) then bs[t + 1].size else 0)
            && m1 == m[b.addr := m1[b.addr]]
  {
  }

  /** After both joins memory holds the list with b in it. */
  lemma FreeWrites(m: Memory, bs: seq<Block>, t: nat, b: Block)
    requires Ordered(bs) && Linked(m, bs) && Clear(bs, b) && Before(bs, t, b.addr) && b.addr in m
    requires m[b.addr].size == b.size
    ensures NextAddr(bs, t) in m && bs[t].addr in m && bs[t].addr != b.addr
    ensures Linked(JoinPrev(JoinNext(m, b.addr, NextAddr(bs, t)), bs[t].addr, b.addr), Freed(bs, t, b))
  {
    hide JoinNext, Linked, JoinPrev, Ordered;
    JoinNextOk(m, bs, t, b);
    LinkedAt(m, bs, t);
    var m1 := JoinNext(m, b.addr, NextAddr(bs, t));
    var m2 := JoinPrev(m1, bs[t].addr, b.addr);
    var k := if TouchesPrev(bs, t, b) then t else t + 1;
    var e := if TouchesNext(bs, t, b) then t + 2 else t + 1;
    if t > 0 { LinkedAt(m, bs, t - 1); }
    PrevNotBase(bs, t, b);
    JoinPrevOk(m1, bs, t, b);
    forall i: nat | i < |bs| && i != t ensures bs[i].addr != bs[t].addr && bs[i].addr != b.addr {
      AddrsDiffer(bs, i, t);
      ClearApart(bs, b, i);
      NotWithin(bs, i, b);
    }
    hide Clear;
    SpliceLinked(m, m2, bs, k, e, Merged(bs, t, b));
  }

  lemma NotWithin(bs: seq<Block>, i: nat, b: Block)
    requires Ordered(bs) && Clear(bs, b) && i < |bs|
    ensures bs[i].addr != b.addr
  {
  }

  /** base is empty and lies below b, so b never joins it. */
  lemma PrevNotBase(bs: seq<Block>, t: nat, b: Block)
    requires Ordered(bs) && Clear(bs, b) && t < |bs|
    ensures TouchesPrev(bs, t, b) ==> t > 0
  {
  }

  lemma JoinPrevOk(m1: Memory, bs: seq<Block>, t: nat, b: Block)
    requires t < |bs| && bs[t].addr in m1 && b.addr in m1 && m1[bs[t].addr].size == bs[t].size
    ensures var m2 := JoinPrev(m1, bs[t].addr, b.addr);
            var p := if TouchesPrev(bs, t, b) then Header(m1[b.addr].ptr, bs[t].size + m1[b.addr].size)
                     else Header(b.addr, bs[t].size);
            m2 == m1[bs[t].addr := p]
  {
  }

  lemma FreedIndex(bs: seq<Block>, t: nat, b: Block)
    requires Ordered(bs) && Clear(bs, b) && Before(bs, t, b.addr)
    ensures t < |Freed(bs, t, b)| && Freed(bs, t, b)[t].addr == bs[t].addr
    ensures exists j :: 0 <= j < |Freed(bs, t, b)| && Freed(bs, t, b)[j].size >= b.size
  {
    var k := if TouchesPrev(bs, t, b) then t else t + 1;
    var m := if TouchesNext(bs, t, b) then t + 2 else t + 1;
    SpliceAt(bs, k, m, Merged(bs, t, b));
    assert Freed(bs, t, b)[k].size >= b.size;
  }

  lemma FreedTiles(owned: set<nat>, bs: seq<Block>, live: map<nat, nat>, t: nat, a: nat)
    requires Ordered(bs) && Tiles(owned, bs, live) && a in live && Clear(bs, Block(a, live[a])) && Before(bs, t, a)
    requires LiveApart(live)
    ensures Tiles(owned, Freed(bs, t, Block(a, live[a])), live - {a})
  {
    var b := Block(a, live[a]);
    forall u: nat ensures u in owned <==> InFree(Freed(bs, t, b), u) || InLive(live - {a}, u) {
      FreedUnits(bs, t, b, u);
      if InLive(live, u) {
        var c :| c in live && In(Block(c, live[c]), u);
        assert c == a || (c in live - {a} && In(Block(c, (live - {a})[c]), u));
      }
      if InLive(live - {a}, u) {
        var c :| c in live - {a} && In(Block(c, (live - {a})[c]), u);
        assert In(Block(c, live[c]), u);
      }
    }
  }

  lemma FreedLive(m0: Memory, m2: Memory, bs: seq<Block>, live: map<nat, nat>, t: nat, a: nat)
    requires Ordered(bs) && LiveOk(m0, live, bs) && LiveApart(live) && a in live && Before(bs, t, a)
    requires forall c :: c in m0 && c != a && c != bs[t].addr ==> c in m2 && m2[c] == m0[c]
    ensures LiveOk(m2, live - {a}, Freed(bs, t, Block(a, live[a])))
  {
    var b := Block(a, live[a]);
    forall c | c in live - {a} ensures c in m2 && m2[c].size == live[c] && Clear(Freed(bs, t, b), Block(c, live[c])) {
      assert Clear(bs, Block(c, live[c])) && Apart(b, Block(c, live[c]));
      assert Apart(bs[t], Block(c, live[c])) && (t == 0 || bs[t].size > 0);
      FreedClear(bs, t, b, Block(c, live[c]));
    }
  }

  // ----- circular walks

  function Succ(i: nat, n: nat): nat { if i + 1 < n then i + 1 else 0 }

  /** Steps from block f to block j; n for f itself. */
  function Steps(f: nat, j: nat, n: nat): int { if j > f then j - f else j - f + n }

  class Heap {
    const base: nat
    var mem: Memory
    var freep: nat  // 0 before the first malloc
    ghost var bs: seq<Block>
    ghost var live: map<nat, nat>  // allocated blocks: header address to size in units
    ghost var owned: set<nat>      // units obtained from sbrk

    ghost predicate Listed()
      reads this
    {
      && Ordered(bs) && bs[0].addr == base && Linked(mem, bs) && exists f :: 0 <= f < |bs| && bs[f].addr == freep
    }

    ghost predicate Ready()
      reads this
    {
      base > 0 && Listed() && LiveOk(mem, live, bs) && LiveApart(live) && Tiles(owned, bs, live)
    }

    ghost predicate Valid()
      reads this
    {
      base > 0 && if freep == 0 then live == map[] && owned == {} && bs == [] else Ready()
    }

    constructor (base: nat)
      requires base > 0
      ensures Valid() && live == map[] && owned == {} && this.base == base
    {
      this.base, freep, mem, bs, live, owned := base, 0, map[], [], map[], {};
    }

    /** The search loop of free stops at the last free block below bp. */
    method FindSpot(bp: nat) returns (p: nat, ghost t: nat)
      requires Listed() && Clear(bs, Block(bp, 1))
      ensures Before(bs, t, bp) && p == bs[t].addr
    {
      t := LastBelow(bs, bp);
      ghost var n := |bs|;
      ghost var i :| 0 <= i < n && bs[i].addr == freep;
      p := freep;
      while !(bp > p && bp < mem[p].ptr)
        invariant 0 <= i < n && p == bs[i].addr && p in mem
        decreases if i <= t then t - i else t - i + n
      {
        assert mem[bs[i].addr] == Header(NextAddr(bs, i), bs[i].size);
        if p >= mem[p].ptr && (bp > p || bp < mem[p].ptr) {
          assert i == n - 1;
          return p, i;
        }
        assert i != t;
        p := mem[p].ptr;
        i := Succ(i, n);
      }
      assert mem[bs[i].addr] == Header(NextAddr(bs, i), bs[i].size);
      t := i;
    }

    method AbsorbNext(bp: nat, next: nat)
      requires bp in mem && next in mem
      modifies this`mem
      ensures mem == JoinNext(old(mem), bp, next)
    {
      if bp + mem[bp].size == next {
        mem := mem[bp := Header(mem[next].ptr, mem[bp].size + mem[next].size)];
      } else {
        mem := mem[bp := Header(next, mem[bp].size)];
      }
    }

    method AbsorbInto(p: nat, bp: nat)
      requires p in mem && bp in mem
      modifies this`mem
      ensures mem == JoinPrev(old(mem), p, bp)
    {
      if p + mem[p].size == bp {
        mem := mem[p := Header(mem[bp].ptr, mem[p].size + mem[bp].size)];
      } else {
        mem := mem[p := Header(bp, mem[p].size)];
      }
    }

    /** free. */
    method Free(ap: nat)
      requires Ready() && ap > 0 && ap - 1 in live
      modifies this
      ensures Ready() && live == old(live) - {ap - 1} && owned == old(owned)
      ensures exists j :: 0 <= j < |bs| && bs[j].size >= old(live)[ap - 1]
      ensures exists t: nat :: Before(old(bs), t, ap - 1) && freep == old(bs)[t].addr
    {
      hide Tiles, Linked, Clear, Freed, LiveApart, Ordered, Before;
      var bp := ap - 1;
      ghost var b := Block(bp, live[bp]);
      ClearStart(bs, b);
      var p, t := FindSpot(bp);
      FreedOrdered(bs, t, b);
      FreedIndex(bs, t, b);
      FreedTiles(owned, bs, live, t, bp);
      FreeWrites(mem, bs, t, b);
      LinkedAt(mem, bs, t);
      ghost var m0 := mem;
      AbsorbNext(bp, mem[p].ptr);
      AbsorbInto(p, bp);
      freep := p;
      FreedLive(m0, mem, bs, live, t, bp);
      assert Before(old(bs), t, bp);
      bs := Freed(bs, t, b);
      live := live - {bp};
      LiveLess(old(live), bp);
    }

    lemma ReadyValid()
      requires Ready()
      ensures Valid() && freep != 0
    {
    }

    /** Take n units from block i: unlink it, or cut off its tail. */
    method TakeFrom(prevp: nat, p: nat, n: nat, ghost i: nat) returns (q: nat)
      requires Ready() && 0 < i < |bs| && p == bs[i].addr && prevp == bs[i - 1].addr && 0 < n <= bs[i].size
      modifies this
      ensures Ready() && owned == old(owned) && q !in old(live) && live == old(live)[q := n]
      ensures q == old(bs)[i].addr + old(bs)[i].size - n && freep == prevp
      ensures CutFrom(old(bs), bs, i, n)
    {
      hide Tiles, Linked, LiveOk, LiveApart, Clear, Ordered, CutFrom;
      TakenCut(bs, i, n);
      ghost var (m0, c) := (mem, TakenBlock(bs[i], n));
      TakenOrdered(bs, i, n);
      TakenLinked(mem, bs, i, n);
      TakenTiles(owned, bs, live, mem, i, n);
      LinkedAt(mem, bs, i);
      q := p;
      if mem[p].size == n {
        mem := mem[prevp := Header(mem[p].ptr, mem[prevp].size)];
      } else {
        mem := mem[p := Header(mem[p].ptr, mem[p].size - n)];
        q := p + mem[p].size;
        ghost var m1 := mem;
        mem := mem[q := Header(if q in mem then mem[q].ptr else 0, n)];
        LinkedElsewhere(m1, Taken(bs, i, n), c, mem[q]);
      }
      freep := prevp;
      TakenLive(m0, mem, bs, live, i, n);
      TakenFirst(bs, i, n);
      bs := Taken(bs, i, n);
      live := live[q := n];
    }

    /** morecore: a region from sbrk, whose answer is brk (negative on failure), joins the free list. */
    method Morecore(nunits: nat, brk: int) returns (p: nat)
      requires Ready() && (brk >= 0 ==> base < brk && forall u: nat :: brk <= u < brk + Grant(nunits) ==> u !in owned)
      modifies this
      ensures Ready() && live == old(live)
      ensures brk < 0 ==> p == 0 && owned == old(owned) && bs == old(bs) && freep == old(freep) && mem == old(mem)
      ensures brk >= 0 ==> && p == freep && owned == old(owned) + Region(brk, Grant(nunits))
                           && !AllSmall(bs, nunits)
    {
      hide Tiles, Linked, LiveOk, LiveApart, Ordered, Region;
      var nu := nunits;
      if nu < MIN_GRANT { nu := MIN_GRANT; }
      if brk < 0 { return 0; }
      ghost var b := Block(brk, nu);
      NewRegion(owned, bs, live, mem, b, if brk in mem then mem[brk].ptr else 0);
      mem := mem[brk := Header(if brk in mem then mem[brk].ptr else 0, nu)];
      owned := owned + Region(brk, nu);
      live := live[brk := nu];
      Free(brk + 1);
      assert live == old(live);
      p := freep;
    }

    /** malloc.  brk is what sbrk would answer; it is asked at most once. */
    method Malloc(nbytes: nat, brk: int) returns (r: nat, ghost n: nat)
      requires Valid() && nbytes < 0x1_0000_0000
      requires brk >= 0 ==> base < brk && forall u: nat :: brk <= u < brk + Grant(Units(nbytes)) ==> u !in owned
      modifies this
      ensures Valid()
      ensures Holds(nbytes, n) && forall k: nat :: Holds(nbytes, k) ==> n <= k
      ensures r == 0 <==> brk < 0 && forall j :: 0 <= j < |old(bs)| ==> old(bs)[j].size < n
      ensures r == 0 ==> live == old(live) && owned == old(owned)
      ensures r != 0 ==> r - 1 !in old(live) && live == old(live)[r - 1 := n]
      ensures r != 0 && owned != old(owned) ==>
                && brk >= 0 && (forall j :: 0 <= j < |old(bs)| ==> old(bs)[j].size < n)
                && forall u :: u in owned <==> u in old(owned) || brk <= u < brk + if n < 4096 then 4096 else n
      ensures r != 0 && owned == old(owned) ==>
                exists f: nat, i: nat :: FirstFit(old(bs), old(freep), n, f, i) && r - 1 == TailAt(old(bs), i, n)
    {
      n := Units(nbytes);
      LeastUnits(nbytes);
      hide Tiles, Linked, LiveOk, LiveApart, Ordered, Walking, Steps, Succ, Region;
      var nunits := (nbytes + UNIT - 1) / UNIT + 1;
      if freep == 0 {
        mem := mem[base := Header(base, 0)];
        freep := base;
        bs := [Block(base, 0)];
        Fresh(mem, base);
      }
      var prevp := freep;
      ghost var f: nat := IndexOf(bs, freep);
      LinkedAt(mem, bs, f);
      WalkStart(bs, f, nunits);
      var p := mem[prevp].ptr;
      ghost var i: nat := Succ(f, |bs|);
      ghost var grown := false;
      while true
        invariant Ready() && live == old(live) && f < |bs| && bs[f].addr == freep && i < |bs|
        invariant Walking(bs, f, i, prevp, p, nunits)
        invariant !grown ==> owned == old(owned) && (AllSmall(bs, nunits) <==> AllSmall(old(bs), nunits))
        invariant !grown ==> bs == (if old(freep) == 0 then [Block(base, 0)] else old(bs))
        invariant !grown && old(freep) != 0 ==> freep == old(freep)
        invariant grown ==> brk >= 0 && owned == old(owned) + Region(brk, Grant(nunits)) && !AllSmall(bs, nunits)
        invariant grown ==> AllSmall(old(bs), nunits) && owned != old(owned)
        invariant grown ==> forall u :: u in owned <==> u in old(owned) || brk <= u < brk + Grant(nunits)
        decreases if grown then 0 else 1, |bs| - Steps(f, i, |bs|)
      {
        WalkAt(bs, f, i, prevp, p, nunits);
        LinkedAt(mem, bs, i);
        if mem[p].size >= nunits {
          FitsFirst(bs, f, i, prevp, p, nunits);
          r := TakeFrom(prevp, p, nunits, i);
          ReadyValid();
          return r + 1, n;
        }
        if p == freep {
          SameIndex(bs, f, i);
          WalkEnd(bs, f, prevp, p, nunits);
          if brk >= 0 { RegionNew(owned, brk, Grant(nunits)); }
          p := Morecore(nunits, brk);
          ReadyValid();
          if p == 0 { return 0, n; }
          grown := true;
          f := IndexOf(bs, freep);
          LinkedAt(mem, bs, f);
          WalkStart(bs, f, nunits);
          i := Succ(f, |bs|);
        } else {
          WalkOn(bs, f, i, prevp, p, nunits);
          i := Succ(i, |bs|);
        }
        prevp := p;
        p := mem[p].ptr;
      }
    }
  }

  lemma ClearStart(bs: seq<Block>, b: Block)
    requires Clear(bs, b)
    ensures Clear(bs, Block(b.addr, 1))
  {
  }

  lemma LiveLess(live: map<nat, nat>, a: nat)
    requires LiveApart(live)
    ensures LiveApart(live - {a})
  {
  }

  /** The last block below an address above base. */
  ghost function LastBelow(bs: seq<Block>, a: nat): (t: nat)
    requires Ordered(bs) && Clear(bs, Block(a, 1))
    ensures Before(bs, t, a)
  {
    LastBelowExists(bs, a, |bs| - 1);
    var t: nat :| Before(bs, t, a);
    t
  }

  lemma {:induction false} LastBelowExists(bs: seq<Block>, a: nat, k: nat)
    requires Ordered(bs) && Clear(bs, Block(a, 1)) && k < |bs| && (k + 1 < |bs| ==> a < bs[k + 1].addr)
    ensures exists t: nat :: Before(bs, t, a)
    decreases k
  {
    if bs[k].addr < a {
      assert Before(bs, k, a);
    } else {
      assert bs[k].addr + bs[k].size <= a || a + 1 <= bs[k].addr;
      LastBelowExists(bs, a, k - 1);
    }
  }

  // ----- malloc

  /** Units needed for nbytes: a header and enough room. */
  function Units(nbytes: nat): nat { (nbytes + UNIT - 1) / UNIT + 1 }

  /** A block of k units has room for nbytes after its header of 16 bytes. */
  predicate Holds(nbytes: nat, k: nat) { 0 < k && (k - 1) * 16 >= nbytes }

  /** malloc asks for the least number of units that will do. */
  lemma LeastUnits(nbytes: nat)
    ensures Holds(nbytes, Units(nbytes)) && forall k: nat :: Holds(nbytes, k) ==> Units(nbytes) <= k
  {
  }

  /** Going round from the block after freep, block i is the first with room for n units. */
  predicate FirstFit(bs: seq<Block>, freep: nat, n: nat, f: nat, i: nat) {
    && f < |bs| && bs[f].addr == freep && i < |bs| && bs[i].size >= n
    && forall j :: 0 <= j < |bs| && (if i > f then f < j < i else f < j || j < i) ==> bs[j].size < n
  }

  /** The place n units before the end of block i. */
  function TailAt(bs: seq<Block>, i: nat, n: nat): int {
    if i < |bs| then bs[i].addr + bs[i].size - n else -1
  }

  lemma FitsFirst(bs: seq<Block>, f: nat, i: nat, prevp: nat, p: nat, n: nat)
    requires Walking(bs, f, i, prevp, p, n) && bs[i].size >= n
    ensures FirstFit(bs, bs[f].addr, n, f, i)
  {
  }

  function Grant(nunits: nat): nat { if nunits < MIN_GRANT then MIN_GRANT else nunits }

  function Region(brk: nat, n: nat): set<nat> { set u: nat | brk <= u < brk + n && In(Block(brk, n), u) }

  lemma RegionNew(owned: set<nat>, brk: nat, n: nat)
    requires n > 0 && forall u: nat :: brk <= u < brk + n ==> u !in owned
    ensures owned + Region(brk, n) != owned
    ensures forall u :: u in owned + Region(brk, n) <==> u in owned || brk <= u < brk + n
  {
    assert brk in Region(brk, n);
  }

  ghost function IndexOf(bs: seq<Block>, a: nat): (f: nat)
    requires exists f :: 0 <= f < |bs| && bs[f].addr == a
    ensures f < |bs| && bs[f].addr == a
  {
    var f: nat :| f < |bs| && bs[f].addr == a;
    f
  }

  lemma SameIndex(bs: seq<Block>, f: nat, i: nat)
    requires Ordered(bs) && f < |bs| && i < |bs| && bs[f].addr == bs[i].addr
    ensures f == i
  {
  }

  predicate AllSmall(bs: seq<Block>, n: nat) { forall j :: 0 <= j < |bs| ==> bs[j].size < n }

  /** malloc's walk from block f has come to block i, and the blocks before it are too small. */
  predicate Walking(bs: seq<Block>, f: nat, i: nat, prevp: nat, p: nat, n: nat) {
    && f < |bs| && i < |bs| && p == bs[i].addr
    && (exists h :: 0 <= h < |bs| && i == Succ(h, |bs|) && prevp == bs[h].addr)
    && (forall j :: 0 <= j < |bs| && Steps(f, j, |bs|) < Steps(f, i, |bs|) ==> bs[j].size < n)
  }

  lemma WalkStart(bs: seq<Block>, f: nat, n: nat)
    requires f < |bs|
    ensures Succ(f, |bs|) < |bs| && Walking(bs, f, Succ(f, |bs|), bs[f].addr, NextAddr(bs, f), n)
    ensures Steps(f, Succ(f, |bs|), |bs|) == 1
  {
  }

  /** A block with room is not base, so its predecessor is the one before it. */
  lemma WalkAt(bs: seq<Block>, f: nat, i: nat, prevp: nat, p: nat, n: nat)
    requires Ordered(bs) && Walking(bs, f, i, prevp, p, n) && n > 0
    ensures p == bs[i].addr && Steps(f, i, |bs|) <= |bs| && (bs[i].size >= n ==> 0 < i && prevp == bs[i - 1].addr)
  {
  }

  lemma WalkOn(bs: seq<Block>, f: nat, i: nat, prevp: nat, p: nat, n: nat)
    requires Walking(bs, f, i, prevp, p, n) && bs[i].size < n && i != f
    ensures Succ(i, |bs|) < |bs| && Walking(bs, f, Succ(i, |bs|), bs[i].addr, NextAddr(bs, i), n)
    ensures Steps(f, Succ(i, |bs|), |bs|) == Steps(f, i, |bs|) + 1
  {
  }

  lemma WalkEnd(bs: seq<Block>, f: nat, prevp: nat, p: nat, n: nat)
    requires Walking(bs, f, f, prevp, p, n) && bs[f].size < n
    ensures AllSmall(bs, n)
  {
  }

  lemma Fresh(m: Memory, base: nat)
    requires base in m && m[base] == Header(base, 0)
    ensures var bs := [Block(base, 0)];
            Ordered(bs) && Linked(m, bs) && LiveOk(m, map[], bs) && LiveApart(map[]) && Tiles({}, bs, map[])
  {
  }

  lemma LinkedElsewhere(m: Memory, bs: seq<Block>, c: Block, h: Header)
    requires Linked(m, bs) && Clear(bs, c) && Ordered(bs)
    ensures Linked(m[c.addr := h], bs)
  {
  }

  lemma TakenFirst(bs: seq<Block>, i: nat, n: nat)
    requires 0 < i < |bs| && 0 < n <= bs[i].size
    ensures i - 1 < |Taken(bs, i, n)| && Taken(bs, i, n)[i - 1] == bs[i - 1]
  {
  }

  lemma TakenTiles(owned: set<nat>, bs: seq<Block>, live: map<nat, nat>, m: Memory, i: nat, n: nat)
    requires Ordered(bs) && Tiles(owned, bs, live) && LiveOk(m, live, bs) && LiveApart(live) && 0 < i < |bs|
    requires 0 < n <= bs[i].size
    ensures var c := TakenBlock(bs[i], n);
            && c.addr !in live && Tiles(owned, Taken(bs, i, n), live[c.addr := n]) && LiveApart(live[c.addr := n])
  {
    var c := TakenBlock(bs[i], n);
    forall a | a in live ensures Apart(Block(a, live[a]), c) { TakenClear(bs, i, n, Block(a, live[a])); }
    forall a | a in live ensures a != c.addr { assert Apart(Block(a, live[a]), c) && Clear(bs, Block(a, live[a])); }
    forall u: nat ensures u in owned <==> InFree(Taken(bs, i, n), u) || InLive(live[c.addr := n], u) {
      TakenUnits(bs, i, n, u);
      LiveMore(live, c, u);
    }
  }

  lemma LiveMore(live: map<nat, nat>, c: Block, u: nat)
    requires c.addr !in live
    ensures InLive(live[c.addr := c.size], u) <==> InLive(live, u) || In(c, u)
  {
    var more := live[c.addr := c.size];
    if InLive(live, u) {
      var a :| a in live && In(Block(a, live[a]), u);
      assert In(Block(a, more[a]), u);
    }
    if In(c, u) { assert In(Block(c.addr, more[c.addr]), u); }
    if InLive(more, u) {
      var a :| a in more && In(Block(a, more[a]), u);
      assert a != c.addr ==> In(Block(a, live[a]), u);
    }
  }

  lemma TakenLive(m0: Memory, m2: Memory, bs: seq<Block>, live: map<nat, nat>, i: nat, n: nat)
    requires Ordered(bs) && LiveOk(m0, live, bs) && 0 < i < |bs| && 0 < n <= bs[i].size
    requires var c := TakenBlock(bs[i], n);
             && c.addr in m2 && m2[c.addr].size == n
             && forall a :: a in m0 && a != c.addr && a != bs[i - 1].addr && a != bs[i].addr ==>
                 a in m2 && m2[a] == m0[a]
    ensures LiveOk(m2, live[TakenBlock(bs[i], n).addr := n], Taken(bs, i, n))
  {
    var c := TakenBlock(bs[i], n);
    TakenOrdered(bs, i, n);
    forall a | a in live && a != c.addr
      ensures a in m2 && m2[a].size == live[a] && Clear(Taken(bs, i, n), Block(a, live[a]))
    {
      var l := Block(a, live[a]);
      assert Clear(bs, l) && Apart(bs[i], l) && Apart(bs[i - 1], l);
      TakenClear(bs, i, n, l);
    }
  }

  /** A region that shares no unit with what is owned can be counted as an allocated block. */
  lemma NewRegion(owned: set<nat>, bs: seq<Block>, live: map<nat, nat>, m: Memory, b: Block, ptr: nat)
    requires Ordered(bs) && Linked(m, bs) && LiveOk(m, live, bs) && LiveApart(live) && Tiles(owned, bs, live)
    requires b.size > 0 && bs[0].addr < b.addr && forall u: nat :: b.addr <= u < b.addr + b.size ==> u !in owned
    ensures var m' := m[b.addr := Header(ptr, b.size)];
            var live' := live[b.addr := b.size];
            && b.addr !in live && Linked(m', bs) && LiveOk(m', live', bs) && LiveApart(live')
            && Tiles(owned + Region(b.addr, b.size), bs, live')
  {
    assert Clear(bs, b) by {
      forall i | 0 <= i < |bs| ensures Apart(bs[i], b) {
        if i > 0 { SharedUnit(bs[i], b, owned, bs, live); }
      }
    }
    forall a | a in live ensures Apart(Block(a, live[a]), b) { SharedLive(a, b, owned, bs, live); }
    forall a | a in live ensures a != b.addr { assert Apart(Block(a, live[a]), b) && Clear(bs, Block(a, live[a])); }
    LinkedElsewhere(m, bs, b, Header(ptr, b.size));
    forall u: nat ensures u in owned + Region(b.addr, b.size) <==> InFree(bs, u) || InLive(live[b.addr := b.size], u) {
      LiveMore(live, b, u);
    }
  }

  lemma SharedUnit(c: Block, b: Block, owned: set<nat>, bs: seq<Block>, live: map<nat, nat>)
    requires Tiles(owned, bs, live) && c in bs && c.size > 0 && b.size > 0
    requires forall u: nat :: b.addr <= u < b.addr + b.size ==> u !in owned
    ensures Apart(c, b)
  {
    var u := if c.addr < b.addr then b.addr else c.addr;
    assert In(c, u) ==> InFree(bs, u);
  }

  lemma SharedLive(a: nat, b: Block, owned: set<nat>, bs: seq<Block>, live: map<nat, nat>)
    requires Tiles(owned, bs, live) && a in live && live[a] > 0 && b.size > 0
    requires forall u: nat :: b.addr <= u < b.addr + b.size ==> u !in owned
    ensures Apart(Block(a, live[a]), b)
  {
    var u := if a < b.addr then b.addr else a;
    assert In(Block(a, live[a]), u) ==> InLive(live, u);
  }
}
