/** The free list of umalloc.c as a sequence of blocks.  Addresses count header-sized units. */
module AllocList {
  datatype Block = Block(addr: nat, size: nat)

  datatype Header = Header(ptr: nat, size: nat)

  type Memory = map<nat, Header>

  /** The list starts with the empty block `base` and goes up in addresses, and no block touches
      the next. */
  predicate Ordered(bs: seq<Block>) {
    && bs != [] && bs[0].size == 0
    && (forall i :: 1 <= i < |bs| ==> bs[i].size > 0)
    && (forall i, j :: 0 <= i < j < |bs| ==> bs[i].addr + bs[i].size < bs[j].addr)
  }

  /** Circular successor. */
  function NextAddr(bs: seq<Block>, i: nat): nat
    requires i < |bs|
  {
    if i + 1 < |bs| then bs[i + 1].addr else bs[0].addr
  }

  /** The headers in memory form the circular list bs. */
  predicate Linked(m: Memory, bs: seq<Block>) {
    forall i :: 0 <= i < |bs| ==> bs[i].addr in m && m[bs[i].addr] == Header(NextAddr(bs, i), bs[i].size)
  }

  lemma LinkedAt(m: Memory, bs: seq<Block>, i: nat)
    requires Linked(m, bs) && i < |bs|
    ensures bs[i].addr in m && m[bs[i].addr] == Header(NextAddr(bs, i), bs[i].size)
  {
    hide NextAddr;
  }

  predicate In(b: Block, u: nat) { b.addr <= u < b.addr + b.size }

  predicate InFree(bs: seq<Block>, u: nat) {
    exists i :: 0 <= i < |bs| && In(bs[i], u)
  }

  /** Block x in place of the blocks k .. m-1. */
  function Splice(bs: seq<Block>, k: nat, m: nat, x: Block): seq<Block>
    requires k <= m <= |bs|
  {
    bs[..k] + [x] + bs[m..]
  }

  lemma SpliceAt(bs: seq<Block>, k: nat, m: nat, x: Block)
    requires k <= m <= |bs|
    ensures var r := Splice(bs, k, m, x);
            && |r| == k + 1 + |bs| - m && r[k] == x
            && (forall i :: 0 <= i < k ==> r[i] == bs[i])
            && (forall i :: k < i < |r| ==> r[i] == bs[i - k - 1 + m])
  {
  }

  lemma OrderedAt(bs: seq<Block>, i: nat, j: nat)
    requires Ordered(bs) && i < j < |bs|
    ensures bs[i].addr + bs[i].size < bs[j].addr
  {
  }

  lemma SpliceOrdered(bs: seq<Block>, k: nat, m: nat, x: Block)
    requires Ordered(bs) && k <= m <= |bs|
    requires if k == 0 then m > 0 && x == bs[0] else x.size > 0 && bs[k - 1].addr + bs[k - 1].size < x.addr
    requires m < |bs| ==> x.addr + x.size < bs[m].addr
    ensures Ordered(Splice(bs, k, m, x))
  {
    SpliceAt(bs, k, m, x);
    var r := Splice(bs, k, m, x);
    forall i, j | 0 <= i < j < |r| ensures r[i].addr + r[i].size < r[j].addr {
      if j < k {
      } else if j == k {
        assert r[i] == bs[i];
      } else {
        var j' := j - k - 1 + m;
        assert r[j] == bs[j'];
        if i > k { assert r[i] == bs[i - k - 1 + m]; }
      }
    }
  }

  /** What the three header writes of a splice must establish. */
  ghost predicate Spliced(m0: Memory, m1: Memory, bs: seq<Block>, k: nat, m: nat, x: Block)
    requires 0 < k <= m <= |bs|
  {
    && x.addr in m1 && m1[x.addr] == Header(if m < |bs| then bs[m].addr else bs[0].addr, x.size)
    && bs[k - 1].addr in m1 && m1[bs[k - 1].addr] == Header(x.addr, bs[k - 1].size)
    && forall i :: (0 <= i < k - 1 || m <= i < |bs|) && bs[i].addr in m0 ==>
         bs[i].addr in m1 && m1[bs[i].addr] == m0[bs[i].addr]
  }

  lemma SpliceLinked(m0: Memory, m1: Memory, bs: seq<Block>, k: nat, m: nat, x: Block)
    requires Linked(m0, bs) && 0 < k <= m <= |bs| && Spliced(m0, m1, bs, k, m, x)
    ensures Linked(m1, Splice(bs, k, m, x))
  {
    SpliceAt(bs, k, m, x);
    var r := Splice(bs, k, m, x);
    forall i | 0 <= i < |r| ensures r[i].addr in m1 && m1[r[i].addr] == Header(NextAddr(r, i), r[i].size) {
      if i < k - 1 {
        assert r[i] == bs[i] && r[i + 1] == bs[i + 1];
      } else if i > k {
        assert r[i] == bs[i - k - 1 + m];
      }
    }
  }

  lemma SpliceUnits(bs: seq<Block>, k: nat, m: nat, x: Block, u: nat)
    requires k <= m <= |bs|
    ensures InFree(Splice(bs, k, m, x), u) <==> InFree(bs[..k], u) || In(x, u) || InFree(bs[m..], u)
  {
    SpliceAt(bs, k, m, x);
    var r := Splice(bs, k, m, x);
    if InFree(bs[..k], u) {
      var i :| 0 <= i < k && In(bs[..k][i], u);
      assert In(r[i], u);
    }
    if In(x, u) { assert In(r[k], u); }
    if InFree(bs[m..], u) {
      var i :| 0 <= i < |bs| - m && In(bs[m..][i], u);
      assert In(r[i + k + 1], u);
    }
    if InFree(r, u) {
      var i :| 0 <= i < |r| && In(r[i], u);
      if i < k { assert In(bs[..k][i], u); }
      if i > k { assert In(bs[m..][i - k - 1], u); }
    }
  }

  lemma SplitUnits(bs: seq<Block>, k: nat, m: nat, u: nat)
    requires k <= m <= |bs|
    ensures InFree(bs, u) <==> InFree(bs[..k], u) || InFree(bs[k..m], u) || InFree(bs[m..], u)
  {
  }

  // ----- giving a block back

  /** b shares no unit with the free blocks and lies above base. */
  predicate Clear(bs: seq<Block>, b: Block) {
    && b.size > 0 && bs != [] && bs[0].addr < b.addr
    && forall i :: 0 <= i < |bs| ==> bs[i].addr + bs[i].size <= b.addr || b.addr + b.size <= bs[i].addr
  }

  /** t is the last block that starts below address a. */
  predicate Before(bs: seq<Block>, t: nat, a: nat) {
    t < |bs| && bs[t].addr < a && (t + 1 < |bs| ==> a < bs[t + 1].addr)
  }

  predicate TouchesNext(bs: seq<Block>, t: nat, b: Block)
    requires t < |bs|
  {
    t + 1 < |bs| && b.addr + b.size == bs[t + 1].addr
  }

  predicate TouchesPrev(bs: seq<Block>, t: nat, b: Block)
    requires t < |bs|
  {
    bs[t].addr + bs[t].size == b.addr
  }

  /** b joined with the free blocks it touches. */
  function Merged(bs: seq<Block>, t: nat, b: Block): Block
    requires t < |bs|
  {
    var up := if TouchesNext(bs, t, b) then Block(b.addr, b.size + bs[t + 1].size) else b;
    if TouchesPrev(bs, t, b) then Block(bs[t].addr, bs[t].size + up.size) else up
  }

  function Freed(bs: seq<Block>, t: nat, b: Block): seq<Block>
    requires t < |bs|
  {
    var k := if TouchesPrev(bs, t, b) then t else t + 1;
    var m := if TouchesNext(bs, t, b) then t + 2 else t + 1;
    Splice(bs, k, m, Merged(bs, t, b))
  }

  lemma FreedOrdered(bs: seq<Block>, t: nat, b: Block)
    requires Ordered(bs) && Clear(bs, b) && Before(bs, t, b.addr)
    ensures Ordered(Freed(bs, t, b)) && Freed(bs, t, b)[0] == bs[0]
  {
    var k := if TouchesPrev(bs, t, b) then t else t + 1;
    var m := if TouchesNext(bs, t, b) then t + 2 else t + 1;
    var x := Merged(bs, t, b);
    assert b.size > 0 && bs[0].size == 0 && bs[0].addr < b.addr;
    ClearApart(bs, b, t);
    if t > 0 { OrderedAt(bs, t - 1, t); }
    if t + 1 < |bs| {
      ClearApart(bs, b, t + 1);
      if t + 2 < |bs| { OrderedAt(bs, t + 1, t + 2); }
    }
    hide Ordered, Clear;
    SpliceOrdered(bs, k, m, x);
    SpliceAt(bs, k, m, x);
  }

  lemma FreedUnits(bs: seq<Block>, t: nat, b: Block, u: nat)
    requires Ordered(bs) && Clear(bs, b) && Before(bs, t, b.addr)
    ensures InFree(Freed(bs, t, b), u) <==> InFree(bs, u) || In(b, u)
  {
    var k := if TouchesPrev(bs, t, b) then t else t + 1;
    var m := if TouchesNext(bs, t, b) then t + 2 else t + 1;
    SpliceUnits(bs, k, m, Merged(bs, t, b), u);
    SplitUnits(bs, k, m, u);
    MergedUnits(bs, t, b, u);
  }

  lemma MergedUnits(bs: seq<Block>, t: nat, b: Block, u: nat)
    requires t < |bs|
    ensures var k := if TouchesPrev(bs, t, b) then t else t + 1;
            var m := if TouchesNext(bs, t, b) then t + 2 else t + 1;
            In(Merged(bs, t, b), u) <==> In(b, u) || InFree(bs[k..m], u)
  {
  }

  predicate Apart(b: Block, c: Block) { b.addr + b.size <= c.addr || c.addr + c.size <= b.addr }

  lemma MergedApart(bs: seq<Block>, t: nat, b: Block, c: Block)
    requires t < |bs| && b.size > 0 && Clear(bs, c) && Apart(b, c)
    ensures Apart(Merged(bs, t, b), c)
  {
    assert Apart(bs[t], c);
    if t + 1 < |bs| { assert Apart(bs[t + 1], c); }
  }

  /** A block that was clear of the free list and of b is clear of the list with b in it. */
  lemma FreedClear(bs: seq<Block>, t: nat, b: Block, c: Block)
    requires Ordered(bs) && Clear(bs, b) && Before(bs, t, b.addr) && Clear(bs, c) && Apart(b, c)
    ensures Clear(Freed(bs, t, b), c)
  {
    var k := if TouchesPrev(bs, t, b) then t else t + 1;
    var m := if TouchesNext(bs, t, b) then t + 2 else t + 1;
    var (r, x) := (Freed(bs, t, b), Merged(bs, t, b));
    assert r == Splice(bs, k, m, x) && k <= m <= |bs|;
    hide Ordered, Clear, Merged, Before, Splice, Freed, TouchesPrev, TouchesNext, Apart;
    MergedApart(bs, t, b, c);
    FreedOrdered(bs, t, b);
    SpliceAt(bs, k, m, x);
    forall i: nat | i < |r| ensures Apart(r[i], c) {
      if i < k {
        ClearApart(bs, c, i);
      } else if i > k {
        ClearApart(bs, c, i - k - 1 + m);
      }
    }
    ApartClear(bs, r, c);
  }

  lemma ApartClear(bs: seq<Block>, r: seq<Block>, c: Block)
    requires Clear(bs, c) && r != [] && r[0] == bs[0] && forall i: nat :: i < |r| ==> Apart(r[i], c)
    ensures Clear(r, c)
  {
    forall i | 0 <= i < |r| ensures r[i].addr + r[i].size <= c.addr || c.addr + c.size <= r[i].addr {
      assert Apart(r[i], c);
    }
  }

  lemma ClearApart(bs: seq<Block>, c: Block, i: nat)
    requires Clear(bs, c) && i < |bs|
    ensures Apart(bs[i], c)
  {
  }

  // ----- taking from a block

  /** The list after malloc takes n units from block i: the block goes, or its tail is cut off. */
  function Taken(bs: seq<Block>, i: nat, n: nat): seq<Block>
    requires i < |bs| && n <= bs[i].size
  {
    if bs[i].size == n then bs[..i] + bs[i + 1..] else bs[i := Block(bs[i].addr, bs[i].size - n)]
  }

  function TakenBlock(b: Block, n: nat): Block
    requires n <= b.size
  {
    Block(b.addr + (b.size - n), n)
  }

  lemma TakenAt(bs: seq<Block>, i: nat, n: nat)
    requires 0 < i < |bs| && 0 < n <= bs[i].size
    ensures var r := Taken(bs, i, n);
            && (forall j :: 0 <= j < i ==> r[j] == bs[j])
            && (bs[i].size == n ==> |r| == |bs| - 1 && forall j :: i <= j < |r| ==> r[j] == bs[j + 1])
            && (bs[i].size != n ==> && |r| == |bs| && r[i] == Block(bs[i].addr, bs[i].size - n)
                                    && forall j :: i < j < |r| ==> r[j] == bs[j])
  {
  }

  /** The list r is bs with n units gone from the end of block i, and the block with them if they were all. */
  predicate CutFrom(bs: seq<Block>, r: seq<Block>, i: nat, n: nat) {
    && i < |bs| && i <= |r| && n <= bs[i].size && (forall j :: 0 <= j < i ==> r[j] == bs[j])
    && if bs[i].size == n then |r| == |bs| - 1 && forall j :: i <= j < |r| ==> r[j] == bs[j + 1]
       else && |r| == |bs| && r[i] == Block(bs[i].addr, bs[i].size - n)
            && forall j :: i < j < |r| ==> r[j] == bs[j]
  }

  lemma TakenCut(bs: seq<Block>, i: nat, n: nat)
    requires 0 < i < |bs| && 0 < n <= bs[i].size
    ensures CutFrom(bs, Taken(bs, i, n), i, n)
  {
    TakenAt(bs, i, n);
  }

  lemma TakenOrdered(bs: seq<Block>, i: nat, n: nat)
    requires Ordered(bs) && 0 < i < |bs| && 0 < n <= bs[i].size
    ensures Ordered(Taken(bs, i, n)) && Taken(bs, i, n)[0] == bs[0]
    ensures Clear(Taken(bs, i, n), TakenBlock(bs[i], n))
  {
    TakenAt(bs, i, n);
    var r := Taken(bs, i, n);
    var c := TakenBlock(bs[i], n);
    forall j | 0 <= j < |r| ensures Apart(r[j], c) {
      if bs[i].size == n && j >= i { assert r[j] == bs[j + 1]; }
      else if j != i { assert r[j] == bs[j]; }
    }
    if bs[i].size == n {
      forall j, k | 0 <= j < k < |r| ensures r[j].addr + r[j].size < r[k].addr {
        assert r[j] == if j < i then bs[j] else bs[j + 1];
        assert r[k] == if k < i then bs[k] else bs[k + 1];
      }
    }
  }

  lemma TakenClear(bs: seq<Block>, i: nat, n: nat, c: Block)
    requires Ordered(bs) && 0 < i < |bs| && 0 < n <= bs[i].size && Clear(bs, c)
    ensures Clear(Taken(bs, i, n), c) && Apart(c, TakenBlock(bs[i], n))
  {
  }

  lemma TakenUnits(bs: seq<Block>, i: nat, n: nat, u: nat)
    requires 0 < i < |bs| && 0 < n <= bs[i].size
    ensures InFree(bs, u) <==> InFree(Taken(bs, i, n), u) || In(TakenBlock(bs[i], n), u)
  {
    TakenAt(bs, i, n);
    var r := Taken(bs, i, n);
    if InFree(bs, u) {
      var j :| 0 <= j < |bs| && In(bs[j], u);
      if j < i { assert In(r[j], u); }
      else if j > i { assert In(r[if bs[i].size == n then j - 1 else j], u); }
      else if !In(TakenBlock(bs[i], n), u) { assert In(r[i], u); }
    }
    if InFree(r, u) {
      var j :| 0 <= j < |r| && In(r[j], u);
      assert In(bs[if bs[i].size == n && j >= i then j + 1 else j], u);
    }
    if In(TakenBlock(bs[i], n), u) { assert In(bs[i], u); }
  }

  lemma AddrsDiffer(bs: seq<Block>, i: nat, j: nat)
    requires Ordered(bs) && i < |bs| && j < |bs| && i != j
    ensures bs[i].addr != bs[j].addr
  {
    assert i < j ==> bs[i].addr + bs[i].size < bs[j].addr;
    assert j < i ==> bs[j].addr + bs[j].size < bs[i].addr;
  }

  /** Entry j of the list r without block i. */
  lemma WholeEntry(m0: Memory, bs: seq<Block>, r: seq<Block>, i: nat, j: nat)
    requires Linked(m0, bs) && Ordered(bs) && 0 < i < |bs| && j < |r| == |bs| - 1
    requires (forall l :: 0 <= l < i ==> r[l] == bs[l]) && forall l :: i <= l < |r| ==> r[l] == bs[l + 1]
    ensures bs[i - 1].addr in m0 && bs[i].addr in m0
    ensures var m1 := m0[bs[i - 1].addr := Header(m0[bs[i].addr].ptr, m0[bs[i - 1].addr].size)];
            r[j].addr in m1 && m1[r[j].addr] == Header(NextAddr(r, j), r[j].size)
  {
    hide Ordered, Linked;
    var j' := if j < i then j else j + 1;
    if j' != i - 1 { AddrsDiffer(bs, j', i - 1); }
    LinkedAt(m0, bs, i - 1);
    LinkedAt(m0, bs, i);
    LinkedAt(m0, bs, j');
  }

  /** Entry j of the list whose block i lost its tail. */
  lemma TailEntry(m0: Memory, bs: seq<Block>, i: nat, n: nat, j: nat)
    requires Linked(m0, bs) && Ordered(bs) && 0 < i < |bs| && n <= bs[i].size && j < |bs|
    ensures bs[i].addr in m0
    ensures var r := bs[i := Block(bs[i].addr, bs[i].size - n)];
            var m1 := m0[bs[i].addr := Header(m0[bs[i].addr].ptr, bs[i].size - n)];
            r[j].addr in m1 && m1[r[j].addr] == Header(NextAddr(r, j), r[j].size)
  {
    hide Ordered, Linked;
    if j != i { AddrsDiffer(bs, j, i); }
    LinkedAt(m0, bs, i);
    LinkedAt(m0, bs, j);
  }

  /** The header write that takes n units from block i. */
  lemma TakenLinked(m0: Memory, bs: seq<Block>, i: nat, n: nat)
    requires Linked(m0, bs) && Ordered(bs) && 0 < i < |bs| && 0 < n <= bs[i].size
    ensures bs[i - 1].addr in m0 && bs[i].addr in m0
    ensures bs[i].size == n ==>
              Linked(m0[bs[i - 1].addr := Header(m0[bs[i].addr].ptr, m0[bs[i - 1].addr].size)], Taken(bs, i, n))
    ensures bs[i].size != n ==>
              Linked(m0[bs[i].addr := Header(m0[bs[i].addr].ptr, bs[i].size - n)], Taken(bs, i, n))
  {
    LinkedAt(m0, bs, i - 1);
    LinkedAt(m0, bs, i);
    hide Linked, Ordered;
    if bs[i].size == n {
      TakenWhole(m0, bs, i);
    } else {
      TakenTail(m0, bs, i, n);
    }
  }

  lemma TakenWhole(m0: Memory, bs: seq<Block>, i: nat)
    requires Linked(m0, bs) && Ordered(bs) && 0 < i < |bs| && bs[i - 1].addr in m0 && bs[i].addr in m0
    ensures Linked(m0[bs[i - 1].addr := Header(m0[bs[i].addr].ptr, m0[bs[i - 1].addr].size)],
                   bs[..i] + bs[i + 1..])
  {
    hide Ordered, NextAddr;
    var r := bs[..i] + bs[i + 1..];
    var m1 := m0[bs[i - 1].addr := Header(m0[bs[i].addr].ptr, m0[bs[i - 1].addr].size)];
    forall j | 0 <= j < |r| ensures r[j].addr in m1 && m1[r[j].addr] == Header(NextAddr(r, j), r[j].size) {
      WholeEntry(m0, bs, r, i, j);
    }
  }

  lemma TakenTail(m0: Memory, bs: seq<Block>, i: nat, n: nat)
    requires Linked(m0, bs) && Ordered(bs) && 0 < i < |bs| && n <= bs[i].size && bs[i].addr in m0
    ensures Linked(m0[bs[i].addr := Header(m0[bs[i].addr].ptr, bs[i].size - n)],
                   bs[i := Block(bs[i].addr, bs[i].size - n)])
  {
    hide Ordered, NextAddr;
    var r := bs[i := Block(bs[i].addr, bs[i].size - n)];
    var m1 := m0[bs[i].addr := Header(m0[bs[i].addr].ptr, bs[i].size - n)];
    forall j | 0 <= j < |r| ensures r[j].addr in m1 && m1[r[j].addr] == Header(NextAddr(r, j), r[j].size) {
      TailEntry(m0, bs, i, n, j);
    }
  }
}
