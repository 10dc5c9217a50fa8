/** kalloc.c and vm.c: physical pages, and page tables built from them. */
module VmMem {
  import opened Common
  import opened VmTable
  import opened VmPages
  import opened VmTree
  import opened VmCost

  /** The free list, threaded through the first word of each free page. */
  predicate Chain(m: Memory, head: nat, free: seq<nat>)
    decreases |free|
  {
    if free == [] then head == 0
    else head == free[0] && IsPage(m, head) && Chain(m, m[head][0], free[1..])
  }

  lemma {:induction false} ChainFrame(m: Memory, m': Memory, head: nat, free: seq<nat>)
    requires Chain(m, head, free) && SamePages(m, m', Elems(free))
    ensures Chain(m', head, free)
    decreases |free|
  {
    if free != [] {
      assert head in Elems(free);
      assert Elems(free[1..]) <= Elems(free);
      ChainFrame(m, m', m[head][0], free[1..]);
    }
  }

  /** What walk returns: the address of a word, the null pointer, or a panic. */
  datatype Slot = At(page: nat, index: nat) | Null | Halt

  datatype MapResult = Mapped | NoMemory | Panicked

  const JUNK5 := 0x0505_0505_0505_0505
  const JUNK1 := 0x0101_0101_0101_0101

  function Fill(w: nat): (r: seq<nat>)
    ensures |r| == 512
  {
    seq(512, _ => w)
  }

  /** Between the two states the pages of t0 and of the free list were only passed between
      table and free list, and no other page changed. */
  predicate Conserved(m0: Memory, free0: seq<nat>, t0: Table, m1: Memory, free1: seq<nat>, t1: Table) {
    && m1.Keys == m0.Keys
    && Busy(t1, free1) == Busy(t0, free0)
    && forall p :: p in m0 && p !in Busy(t0, free0) ==> m1[p] == m0[p]
  }

  /** t1 has t0's tables and perhaps more, and the same flat map. */
  predicate Grown(t0: Table, t1: Table) {
    && t1.root == t0.root && t1.leaf == t0.leaf
    && (forall k :: k in t0.mid ==> k in t1.mid && t1.mid[k] == t0.mid[k])
    && (forall k :: k in t0.low ==> k in t1.low && t1.low[k] == t0.low[k])
  }

  lemma ConservedTrans(m0: Memory, f0: seq<nat>, t0: Table, m1: Memory, f1: seq<nat>, t1: Table, m2: Memory,
                       f2: seq<nat>, t2: Table)
    requires Conserved(m0, f0, t0, m1, f1, t1) && Conserved(m1, f1, t1, m2, f2, t2)
    ensures Conserved(m0, f0, t0, m2, f2, t2)
  {
  }

  /** The page that walk has reached when `level` more levels are below it. */
  predicate Reached(t: Table, va: nat, level: nat, p: nat)
    requires level <= 2
  {
    var v := va / PGSIZE;
    if level == 2 then p == t.root
    else if level == 1 then v / 0x4_0000 in t.mid && p == t.mid[v / 0x4_0000]
    else v / 512 in t.low && p == t.low[v / 512]
  }

  /** The table that walk looks for next exists. */
  predicate HasTable(t: Table, va: nat, level: nat) {
    if level == 1 then va / PGSIZE / 0x4_0000 in t.mid else va / PGSIZE / 512 in t.low
  }

  /** The entry walk reads at level 2 or 1, and whether it points anywhere. */
  lemma WalkEntry(m: Memory, t: Table, va: nat, level: nat, p: nat)
    requires Holds(m, t) && va < MAXVA && 1 <= level <= 2 && Reached(t, va, level, p)
    ensures IsPage(m, p) && p in TablePages(t) && Px(level, va) < 512
    ensures var w := m[p][Px(level, va)];
            && (V(w) <==> HasTable(t, va, level - 1))
            && (V(w) ==> Reached(t, va, level - 1, PtePa(w)))
  {
    hide Key, Pte, PtePa;
    PxDigits(va);
    var v := va / PGSIZE;
    if level == 2 {
      var k := v / 0x4_0000;
      if k in t.mid {
        assert MidOk(m, t, k);
        LinkOk(t.mid, k);
      }
    } else {
      var k := v / 0x4_0000;
      assert MidOk(m, t, k) && v / 512 / 512 == k;
      KeyOf(v / 512);
      if v / 512 in t.low {
        assert LowOk(m, t, v / 512);
        LinkOk(t.low, v / 512);
      }
    }
  }

  lemma LinkOk(f: map<nat, nat>, k: nat)
    requires k in f && f[k] % PGSIZE == 0
    ensures V(Link(f, k)) && PtePa(Link(f, k)) == f[k]
  {
    hide Pte, PtePa, PteFlags;
    PteParts(f[k], 1);
    FlagBits(Pte(f[k], 1));
  }

  lemma RootReached(t: Table, va: nat)
    ensures Reached(t, va, 2, t.root)
  {
  }

  /** A mapped page has its tables. */
  lemma LeafTabled(m: Memory, t: Table, v: nat)
    requires Holds(m, t)
    ensures v in t.leaf ==> Missing(t, v) == 0
  {
  }

  lemma HasReached(t: Table, va: nat, p: nat)
    requires Reached(t, va, 0, p)
    ensures HasTable(t, va, 0)
  {
  }

  /** A low table for va means that there is a table at either level. */
  lemma HasBoth(m: Memory, t: Table, t1: Table, va: nat, level: nat)
    requires Holds(m, t) && Grown(t, t1) && 1 <= level <= 2
    ensures HasTable(t, va, 0) ==> HasTable(t1, va, level - 1)
  {
  }

  /** walk has passed the levels above `level` on its way to page v; of n0 free pages n are left. */
  predicate Spent(t: Table, t': Table, v: nat, level: nat, n0: nat, n: nat) {
    && t'.mid.Keys == (if level < 2 then t.mid.Keys + {v / 0x4_0000} else t.mid.Keys)
    && t'.low.Keys == (if level < 1 then t.low.Keys + {v / 512} else t.low.Keys)
    && n0 == n + (if level < 2 && v / 0x4_0000 !in t.mid then 1 else 0)
             + (if level < 1 && v / 512 !in t.low then 1 else 0)
  }

  lemma SpentStep(t: Table, t1: Table, t2: Table, va: nat, level: nat, q: nat, n0: nat, n1: nat, n2: nat)
    requires Spent(t, t1, va / PGSIZE, level, n0, n1) && 1 <= level <= 2
    requires if HasTable(t1, va, level - 1) then t2 == t1 && n2 == n1
             else t2 == Extended(t1, va, level, q) && n2 == n1 - 1
    ensures Spent(t, t2, va / PGSIZE, level - 1, n0, n2)
  {
  }

  lemma SpentAll(t: Table, t': Table, v: nat, n0: nat, n: nat)
    requires Spent(t, t', v, 0, n0, n)
    ensures Tabled(t, t', {v}) && n == n0 - Missing(t, v)
  {
    assert MidKeys({v}) == {v / 0x4_0000} && LowKeys({v}) == {v / 512};
  }

  lemma SpentOut(t: Table, t1: Table, va: nat, level: nat, n0: nat)
    requires Spent(t, t1, va / PGSIZE, level, n0, 0) && 1 <= level <= 2 && !HasTable(t1, va, level - 1)
    ensures n0 < Missing(t, va / PGSIZE)
  {
  }

  lemma ReachedPage(m: Memory, t: Table, va: nat, level: nat, q: nat)
    requires Holds(m, t) && level <= 1 && Reached(t, va, level, q)
    ensures IsPage(m, q) && q in TablePages(t)
  {
  }

  /** The table with a fresh page q hung at walk's position. */
  function Extended(t: Table, va: nat, level: nat, q: nat): Table {
    if level == 2 then t.(mid := t.mid[va / PGSIZE / 0x4_0000 := q]) else t.(low := t.low[va / PGSIZE / 512 := q])
  }

  lemma ExtendOk(m: Memory, t: Table, va: nat, level: nat, p: nat, q: nat)
    requires Holds(m, t) && va < MAXVA && 1 <= level <= 2 && Reached(t, va, level, p)
    requires IsPage(m, p) && Px(level, va) < 512 && !V(m[p][Px(level, va)])
    requires IsPage(m, q) && m[q] == ZeroPage() && q !in TablePages(t)
    ensures var t' := Extended(t, va, level, q);
            && Holds(Poke(m, p, Px(level, va), Pte(q, 1)), t') && Reached(t', va, level - 1, q)
            && Grown(t, t') && TablePages(t') == TablePages(t) + {q}
  {
    hide Holds, Pte;
    PxDigits(va);
    WalkEntry(m, t, va, level, p);
    var v := va / PGSIZE;
    if level == 2 {
      AddMid(m, t, v / 0x4_0000, q);
    } else {
      AddLow(m, t, v / 512, q);
    }
  }

  /** The word walk leads to is the flat map's entry. */
  lemma SlotWord(m: Memory, t: Table, va: nat, p: nat)
    requires Holds(m, t) && va < MAXVA && Reached(t, va, 0, p)
    ensures IsPage(m, p) && p in TablePages(t) && Px(0, va) < 512
    ensures var (v, w) := (va / PGSIZE, m[p][Px(0, va)]);
            && w == LeafWord(t.leaf, v) && (V(w) <==> v in t.leaf) && (U(w) <==> v in t.leaf && U(t.leaf[v].flags))
            && (v in t.leaf ==> && PtePa(w) == t.leaf[v].pa && PteFlags(w) == t.leaf[v].flags
                                && w == t.leaf[v].pa / 4 + t.leaf[v].flags)
  {
    hide Key, Pte, PtePa, PteFlags, U;
    PxDigits(va);
    var v := va / PGSIZE;
    assert LowOk(m, t, v / 512);
    KeyOf(v);
    ReachedPage(m, t, va, 0, p);
    if v in t.leaf {
      assert LeafOk(t, v);
      PteParts(t.leaf[v].pa, t.leaf[v].flags);
      PteFormat(t.leaf[v].pa, t.leaf[v].flags);
      FlagBits(LeafWord(t.leaf, v));
    } else {
      ZeroBits();
    }
  }

  /** walkaddr finds the pages uvmalloc adds, and not pages mapped without PTE_U. */
  lemma UserFlags(xperm: nat, perm: nat)
    requires xperm in {0, 4, 8, 12} && perm in {2, 6, 10, 14}
    ensures HasBit(19 + xperm, 1) && HasBit(19 + xperm, 2) && HasBit(19 + xperm, 16)
    ensures (HasBit(19 + xperm, 4) <==> xperm in {4, 12}) && (HasBit(19 + xperm, 8) <==> xperm in {8, 12})
    ensures HasBit(WithV(perm), 1) && HasBit(WithV(perm), 2) && !HasBit(WithV(perm), 16)
  {
    hide HasBit;
    FlagMeaning(19 + xperm);
    FlagMeaning(WithV(perm));
  }

  /** Writing the word walk leads to changes one entry of the flat map. */
  lemma SlotWrite(m: Memory, t: Table, va: nat, p: nat, leaf': map<nat, Leaf>)
    requires Holds(m, t) && va < MAXVA && Reached(t, va, 0, p) && IsPage(m, p) && Px(0, va) < 512
    requires var v := va / PGSIZE;
             && (leaf' == t.leaf - {v} || (v in leaf' && leaf' == t.leaf[v := leaf'[v]]))
             && (v in leaf' ==> leaf'[v].pa % PGSIZE == 0 && leaf'[v].flags < 1024 && V(leaf'[v].flags))
    ensures Holds(Poke(m, p, Px(0, va), LeafWord(leaf', va / PGSIZE)), t.(leaf := leaf'))
  {
    hide Holds, Pte, LeafWord;
    PxDigits(va);
    SetLeaf(m, t, va / PGSIZE, leaf');
  }

  lemma SameTables(t: Table, t': Table)
    requires t' == t.(leaf := t'.leaf)
    ensures TablePages(t') == TablePages(t)
  {
  }

  lemma NoLowNoLeaf(m: Memory, t: Table, va: nat)
    requires Holds(m, t) && !HasTable(t, va, 0)
    ensures va / PGSIZE !in t.leaf
  {
  }

  /** mappages has mapped k pages from v to frames from b on, and the tables on the way are paid for. */
  ghost predicate Mapping(m0: Memory, f0: seq<nat>, t: Table, m1: Memory, f1: seq<nat>, t1: Table,
                          v: nat, k: nat, b: nat, flags: nat)
  {
    && Conserved(m0, f0, t, m1, f1, t1) && AddsRange(t.leaf, t1.leaf, v, k, b, flags)
    && (forall w :: v <= w < v + k ==> w !in t.leaf)
    && Paid(t, t1, Interval(v, v + k), |f0|, |f1|)
  }

  lemma MappingParts(m0: Memory, f0: seq<nat>, t: Table, m1: Memory, f1: seq<nat>, t1: Table,
                     v: nat, k: nat, b: nat, flags: nat)
    requires Mapping(m0, f0, t, m1, f1, t1, v, k, b, flags)
    ensures Conserved(m0, f0, t, m1, f1, t1) && AddsRange(t.leaf, t1.leaf, v, k, b, flags)
    ensures forall w :: v <= w < v + k ==> w !in t.leaf
    ensures Paid(t, t1, Interval(v, v + k), |f0|, |f1|)
  {
  }

  lemma MappingNone(m: Memory, f: seq<nat>, t: Table, v: nat, b: nat, flags: nat)
    ensures Mapping(m, f, t, m, f, t, v, 0, b, flags)
  {
    hide Conserved, Paid;
    ConservedRefl(m, f, t);
    AddsNone(t.leaf, v, b, flags);
    IntervalAdd(v, v);
    PaidNone(t, |f|);
  }

  /** The next page is mapped now exactly if it was mapped before. */
  lemma MappingNext(m0: Memory, f0: seq<nat>, t: Table, m1: Memory, f1: seq<nat>, t1: Table,
                    v: nat, k: nat, b: nat, flags: nat)
    requires Mapping(m0, f0, t, m1, f1, t1, v, k, b, flags)
    ensures v + k in t1.leaf <==> v + k in t.leaf
  {
    assert Lookup(t1.leaf, v + k) == Lookup(t.leaf, v + k);
  }

  lemma MappingStep(m0: Memory, f0: seq<nat>, t: Table, m1: Memory, f1: seq<nat>, t1: Table,
                    v: nat, k: nat, b: nat, flags: nat, m2: Memory, f2: seq<nat>, t2: Table)
    requires Mapping(m0, f0, t, m1, f1, t1, v, k, b, flags) && Conserved(m1, f1, t1, m2, f2, t2)
    requires t2.leaf == t1.leaf[v + k := Leaf(b + k * PGSIZE, flags)] && v + k !in t.leaf
    requires Tabled(t1, t2, {v + k}) && |f2| == |f1| - Missing(t1, v + k)
    ensures Mapping(m0, f0, t, m2, f2, t2, v, k + 1, b, flags)
  {
    hide Conserved, Paid, Tabled, Missing, AddsRange, Interval;
    ConservedTrans(m0, f0, t, m1, f1, t1, m2, f2, t2);
    AddsOne(t.leaf, t1.leaf, v, k, b, flags);
    IntervalAdd(v, v + k);
    PaidAdd(t, t1, t2, Interval(v, v + k), v + k, |f0|, |f1|, |f2|);
  }

  lemma MappingStop(m0: Memory, f0: seq<nat>, t: Table, m1: Memory, f1: seq<nat>, t1: Table,
                    v: nat, k: nat, b: nat, flags: nat, m2: Memory, f2: seq<nat>, t2: Table)
    requires Mapping(m0, f0, t, m1, f1, t1, v, k, b, flags) && Conserved(m1, f1, t1, m2, f2, t2)
    requires t2.leaf == t1.leaf
    ensures Conserved(m0, f0, t, m2, f2, t2) && AddsRange(t.leaf, t2.leaf, v, k, b, flags)
    ensures forall w :: v <= w < v + k ==> w !in t.leaf
    ensures |f1| < Missing(t1, v + k) ==> |f0| < Tables(t, Interval(v, v + k + 1))
  {
    hide Conserved, Paid, Tables, Missing, AddsRange, Interval;
    ConservedTrans(m0, f0, t, m1, f1, t1, m2, f2, t2);
    IntervalAdd(v, v + k);
    if |f1| < Missing(t1, v + k) { PaidOut(t, t1, Interval(v, v + k), v + k, |f0|, |f1|); }
  }

  /** Only pages of t changed. */
  predicate OnlyTables(m0: Memory, m1: Memory, t: Table) {
    m1.Keys == m0.Keys && forall p :: p in m0 && p !in TablePages(t) ==> m1[p] == m0[p]
  }

  lemma UserPage(t: Table, v: nat)
    requires v in t.leaf && v < USERV
    ensures t.leaf[v].pa in UserPages(t)
  {
  }

  lemma ConservedRefl(m: Memory, f: seq<nat>, t: Table)
    ensures Conserved(m, f, t, m, f, t)
  {
  }

  lemma AddsNone(f: map<nat, Leaf>, v: nat, pa: nat, flags: nat)
    ensures AddsRange(f, f, v, 0, pa, flags)
  {
  }

  lemma PageStep(va: nat, k: nat)
    requires va % PGSIZE == 0
    ensures (va + k * PGSIZE) / PGSIZE == va / PGSIZE + k
  {
  }

  lemma BaseStep(pa: nat, k: nat)
    ensures Base(pa + k * PGSIZE) == Base(pa) + k * PGSIZE
  {
  }

  lemma MovedRefl(m: Memory, f: seq<nat>, t: Table)
    ensures Moved(m, f, t, m, f, t)
  {
  }

  lemma OnlyRefl(m: Memory, t: Table)
    ensures OnlyTables(m, m, t)
  {
  }

  lemma OnlyTrans(m0: Memory, m1: Memory, m2: Memory, t: Table, t1: Table)
    requires OnlyTables(m0, m1, t) && OnlyTables(m1, m2, t1) && t1 == t.(leaf := t1.leaf)
    ensures OnlyTables(m0, m2, t)
  {
  }

  lemma BasePage(pa: nat)
    requires pa % PGSIZE == 0
    ensures Base(pa) == pa
  {
  }

  lemma OneOrNone(f: map<nat, Leaf>, g: map<nat, Leaf>, v: nat, k: nat, pa: nat, flags: nat)
    requires AddsRange(f, g, v, k, pa, flags) && k <= 1
    ensures g == if k == 0 then f else f[v := Leaf(pa, flags)]
  {
    var h := if k == 0 then f else f[v := Leaf(pa, flags)];
    forall w: nat ensures Lookup(g, w) == Lookup(h, w) { }
    SameMap(h, g);
  }

  lemma ConservedPage(m1: Memory, f1: seq<nat>, t: Table, m2: Memory, f2: seq<nat>, t': Table, p: nat)
    requires Conserved(m1, f1, t, m2, f2, t') && p in m1 && p !in Busy(t, f1)
    ensures p !in Busy(t', f2) && p in m2 && m2[p] == m1[p]
  {
  }

  /** A page was taken from the free list, mapping it failed, and it went back. */
  lemma Returned(m0: Memory, f0: seq<nat>, t: Table, m1: Memory, f1: seq<nat>, m2: Memory, f2: seq<nat>, t': Table,
                 m3: Memory, f3: seq<nat>, pa: nat)
    requires Busy(t, f0) == Busy(t, f1) + {pa} && m1.Keys == m0.Keys
    requires forall p :: p in m0 && p != pa ==> m1[p] == m0[p]
    requires Conserved(m1, f1, t, m2, f2, t') && t'.leaf == t.leaf && Busy(t', f3) == Busy(t', f2) + {pa}
    requires m3.Keys == m2.Keys && forall p :: p in m2 && p != pa ==> m3[p] == m2[p]
    requires UserPages(t) !! Busy(t, f0) && UserInjective(t)
    ensures Moved(m0, f0, t, m3, f3, t') && UserPages(t') == UserPages(t) && UserInjective(t')
    ensures UserPages(t') !! Busy(t', f3)
    ensures m3.Keys == m0.Keys && forall p <- UserPages(t) :: p in m0 ==> m3[p] == m0[p]
  {
  }

  /** A page was taken from the free list and mapped at v. */
  lemma Gained(m0: Memory, f0: seq<nat>, t: Table, m1: Memory, f1: seq<nat>, m2: Memory, f2: seq<nat>, t': Table,
               v: nat, content: seq<nat>)
    requires v !in t.leaf && v in t'.leaf && v < USERV && t'.leaf == t.leaf[v := t'.leaf[v]]
    requires var pa := t'.leaf[v].pa;
             Busy(t, f0) == Busy(t, f1) + {pa} && pa !in Busy(t, f1) && pa in m0 && m1 == m0[pa := content]
    requires Conserved(m1, f1, t, m2, f2, t') && UserPages(t) !! Busy(t, f0) && UserInjective(t)
    ensures Moved(m0, f0, t, m2, f2, t') && UserPages(t') == UserPages(t) + {t'.leaf[v].pa}
    ensures UserInjective(t') && UserPages(t') !! Busy(t', f2) && m2[t'.leaf[v].pa] == content
    ensures m2.Keys == m0.Keys && forall p <- UserPages(t) :: p in m0 ==> m2[p] == m0[p]
  {
    hide Busy, UserPages, UserInjective;
    UserAdd(t, v, t'.leaf[v]);
    UserSame(t.(leaf := t'.leaf), t');
  }

  /** PGROUNDUP(sz) / PGSIZE: the least number of pages that hold sz bytes. */
  function Up(sz: nat): (r: nat)
    ensures sz <= r * 4096 < sz + 4096
  {
    (sz + PGSIZE - 1) / PGSIZE
  }

  datatype SizeResult = Size(n: nat) | Failed | Stopped

  /** Zeroed pages from lo up to hi. */
  function Zeroed(lo: nat, hi: nat, flags: nat): Wanted {
    map w: nat | lo <= w < hi :: ZeroAt(w, flags)
  }

  function ZeroAt(w: nat, flags: nat): (nat, seq<nat>) { (flags, ZeroPage()) }

  lemma HoldingNone(f: map<nat, Leaf>, m: Memory, v: nat, flags: nat)
    ensures Holding(f, f, m, Zeroed(v, v, flags))
  {
  }

  lemma PermV(xperm: nat)
    requires xperm in {0, 4, 8, 12}
    ensures WithV(18 + xperm) == 19 + xperm
  {
  }

  lemma ZeroedAbsent(f: map<nat, Leaf>, g: map<nat, Leaf>, m: Memory, lo: nat, v: nat, flags: nat)
    requires Holding(f, g, m, Zeroed(lo, v, flags)) && v in g
    ensures v in f
  {
  }

  lemma ZeroedStep(f: map<nat, Leaf>, t1: Table, m1: Memory, f1: seq<nat>, t2: Table, m2: Memory, f2: seq<nat>,
                   lo: nat, v: nat, flags: nat)
    requires Holding(f, t1.leaf, m1, Zeroed(lo, v, flags)) && lo <= v < USERV
    requires Moved(m1, f1, t1, m2, f2, t2) && UserPages(t1) !! Busy(t1, f1) && UserPages(t1) <= UserPages(t2)
    requires v !in t1.leaf && v in t2.leaf && t2.leaf == t1.leaf[v := t2.leaf[v]]
    requires t2.leaf[v].pa in m2 && m2[t2.leaf[v].pa] == ZeroPage() && t2.leaf[v].flags == flags
    ensures Holding(f, t2.leaf, m2, Zeroed(lo, v + 1, flags))
  {
    hide Holding, Moved, UserPages, Busy;
    assert Zeroed(lo, v + 1, flags) == Zeroed(lo, v, flags)[v := (flags, ZeroPage())];
    HoldingAdd(f, t1, m1, f1, t2, m2, f2, Zeroed(lo, v, flags), v);
  }

  /** The failure paths of uvmalloc and uvmcopy: the pages added so far are taken away again. */
  lemma UndoGrowth(m0: Memory, f0: seq<nat>, t: Table, m1: Memory, f1: seq<nat>, t1: Table,
                   m2: Memory, f2: seq<nat>, t2: Table, m': Memory, want: Wanted, lo: nat, hi: nat)
    requires Holding(t.leaf, t1.leaf, m', want) && (forall w: nat :: w in want ==> lo <= w < hi)
    requires forall w: nat :: lo <= w < hi && w in t.leaf ==> w in want
    requires forall w: nat :: Lookup(t2.leaf, w) == if lo <= w < hi then None else Lookup(t1.leaf, w)
    requires Moved(m0, f0, t, m1, f1, t1) && Moved(m1, f1, t1, m2, f2, t2)
    requires UserPages(t) !! Busy(t, f0) && UserPages(t1) !! Busy(t1, f1) && UserPages(t2) !! Busy(t2, f2)
    ensures t2.leaf == t.leaf && Moved(m0, f0, t, m2, f2, t2) && Busy(t2, f2) == Busy(t, f0)
  {
    hide Holding, Moved, UserPages, Busy;
    HoldingUndone(t.leaf, t1.leaf, m', want, t2.leaf, lo, hi);
    HoldingGrows(t, t1, m', want);
    UserSame(t, t2);
    MovedTrans(m0, f0, t, m1, f1, t1, m2, f2, t2);
    BusySame(m0, f0, t, m2, f2, t2);
  }

  lemma ZeroedKeys(lo: nat, hi: nat, flags: nat)
    ensures forall w: nat :: w in Zeroed(lo, hi, flags) <==> lo <= w < hi
  {
  }

  /** The pages uvmcopy is to make: those of the parent below page n. */
  function Copied(m: Memory, f: map<nat, Leaf>, n: nat): Wanted {
    map w | w in f && w < n && f[w].pa in m :: (f[w].flags, m[f[w].pa])
  }

  lemma CopiedNone(f: map<nat, Leaf>, m: Memory, g: map<nat, Leaf>)
    ensures Holding(f, f, m, Copied(m, g, 0))
  {
  }

  lemma CopiedSkip(m: Memory, f: map<nat, Leaf>, n: nat)
    requires n !in f
    ensures Copied(m, f, n + 1) == Copied(m, f, n)
  {
  }

  lemma CopiedStep(f: map<nat, Leaf>, t1: Table, m1: Memory, f1: seq<nat>, t2: Table, m2: Memory, f2: seq<nat>,
                   m: Memory, g: map<nat, Leaf>, v: nat)
    requires Holding(f, t1.leaf, m1, Copied(m, g, v)) && v < USERV && v in g && g[v].pa in m
    requires Moved(m1, f1, t1, m2, f2, t2) && UserPages(t1) !! Busy(t1, f1) && UserPages(t1) <= UserPages(t2)
    requires v !in t1.leaf && v in t2.leaf && t2.leaf == t1.leaf[v := t2.leaf[v]]
    requires t2.leaf[v].pa in m2 && m2[t2.leaf[v].pa] == m[g[v].pa] && t2.leaf[v].flags == g[v].flags
    ensures Holding(f, t2.leaf, m2, Copied(m, g, v + 1))
  {
    hide Holding, Moved, UserPages, Busy;
    assert Copied(m, g, v + 1) == Copied(m, g, v)[v := (g[v].flags, m[g[v].pa])];
    HoldingAdd(f, t1, m1, f1, t2, m2, f2, Copied(m, g, v), v);
  }

  /** t' is t with a copy of o's page v. */
  predicate PageCopied(o: Table, t: Table, t': Table, m0: Memory, m1: Memory, v: nat) {
    && v !in t.leaf && v in t'.leaf && t'.leaf == t.leaf[v := t'.leaf[v]]
    && v in o.leaf && o.leaf[v].pa in m0 && Has(t'.leaf, m1, v, o.leaf[v].flags, m0[o.leaf[v].pa])
  }

  lemma CopiedKeys(m: Memory, f: map<nat, Leaf>, n: nat)
    ensures forall w: nat :: w in Copied(m, f, n) ==> w < n
  {
  }

  lemma CopiedNext(f: map<nat, Leaf>, g: map<nat, Leaf>, m1: Memory, m: Memory, h: map<nat, Leaf>, v: nat)
    requires Holding(f, g, m1, Copied(m, h, v))
    ensures v in g <==> v in f
  {
    assert Lookup(g, v) == Lookup(f, v);
  }

  /** The map without its pages below n. */
  ghost predicate ClearedBelow(f: map<nat, Leaf>, g: map<nat, Leaf>, n: nat) {
    forall w: nat :: Lookup(g, w) == if w < n then None else Lookup(f, w)
  }

  lemma CopiedGone(f: map<nat, Leaf>, g: map<nat, Leaf>, g': map<nat, Leaf>, m1: Memory, m: Memory,
                   h: map<nat, Leaf>, v: nat)
    requires Holding(f, g, m1, Copied(m, h, v)) && ClearedBelow(g, g', v)
    ensures ClearedBelow(f, g', v)
  {
    forall w: nat ensures Lookup(g', w) == if w < v then None else Lookup(f, w) {
      assert w !in Copied(m, h, v) ==> Lookup(g, w) == Lookup(f, w);
    }
  }

  lemma HoldingSame(f: map<nat, Leaf>, t1: Table, m1: Memory, f1: seq<nat>, t2: Table, m2: Memory, f2: seq<nat>,
                    want: Wanted)
    requires Holding(f, t1.leaf, m1, want) && t2.leaf == t1.leaf && (forall w: nat :: w in want ==> w < USERV)
    requires Moved(m1, f1, t1, m2, f2, t2) && UserPages(t1) !! Busy(t1, f1)
    ensures Holding(f, t2.leaf, m2, want)
  {
  }

  /** The parent's pages: tables and user pages. */
  function Mine(t: Table): set<nat> { TablePages(t) + UserPages(t) }

  lemma MinePage(t: Table, v: nat)
    requires v in t.leaf && v < USERV
    ensures t.leaf[v].pa in Mine(t)
  {
  }

  lemma OthersKept(m0: Memory, f0: seq<nat>, t0: Table, m1: Memory, f1: seq<nat>, t1: Table, ps: set<nat>)
    requires Moved(m0, f0, t0, m1, f1, t1) && ps !! All(t0, f0) && forall p <- ps :: p in m0
    ensures SamePages(m0, m1, ps) && ps !! All(t1, f1)
  {
  }

  lemma SameTrans(m0: Memory, m1: Memory, m2: Memory, ps: set<nat>)
    requires SamePages(m0, m1, ps) && SamePages(m1, m2, ps)
    ensures SamePages(m0, m2, ps)
  {
  }

  lemma LeafFlags(m: Memory, t: Table, v: nat)
    requires Holds(m, t) && v in t.leaf
    ensures t.leaf[v].flags < 1024 && WithV(t.leaf[v].flags) == t.leaf[v].flags
  {
  }

  /** PGROUNDDOWN. */
  function Base(pa: nat): (r: nat)
    ensures r % 4096 == 0 && r <= pa < r + 4096
  {
    pa / PGSIZE * PGSIZE
  }

  /** perm | PTE_V. */
  function WithV(perm: nat): nat { if V(perm) then perm else perm + 1 }

  /** Only the bit PTE_V is set; the other flags stay. */
  lemma WithVIs(perm: nat)
    ensures HasBit(WithV(perm), 1) && WithV(perm) / 2 == perm / 2
  {
    FlagMeaning(WithV(perm));
  }

  lemma BasePte(f: map<nat, Leaf>, v: nat, pa: nat, flags: nat)
    ensures Base(pa) % PGSIZE == 0 && LeafWord(f[v := Leaf(Base(pa), flags)], v) == Pte(pa, flags)
  {
  }

  lemma ClearedWord(f: map<nat, Leaf>, v: nat)
    ensures LeafWord(f - {v}, v) == 0
  {
  }

  lemma WithVOk(perm: nat)
    requires perm < 1024
    ensures WithV(perm) < 1024 && V(WithV(perm))
  {
  }

  lemma ZeroBits()
    ensures !V(0) && !U(0)
  {
  }

  /** p is a whole page between start and end. */
  predicate InRange(start: nat, end: nat, p: nat) { p % PGSIZE == 0 && start <= p && p + PGSIZE <= end }

  lemma RangeStart(start: nat, end: nat)
    ensures var p := Up(start) * PGSIZE; p >= start && forall q: nat :: InRange(start, end, q) ==> q >= p
  {
  }

  lemma RangeNext(start: nat, end: nat, p: nat)
    requires p % PGSIZE == 0 && start <= p && p + PGSIZE <= end
    ensures InRange(start, end, p)
    ensures forall q: nat :: InRange(start, end, q) && q < p + PGSIZE ==> q <= p
  {
  }

  lemma RangeEnd(start: nat, end: nat, p: nat)
    requires p + PGSIZE > end
    ensures forall q: nat :: InRange(start, end, q) ==> q < p
  {
  }

  lemma RemovesNone(f: map<nat, Leaf>)
    ensures RemovesRange(f, f, 0, 0)
  {
  }

  /** After uvmunmap the leaves left are those at or above n. */
  lemma LeavesGone(t: Table, t1: Table, n: nat)
    requires RemovesRange(t.leaf, t1.leaf, 0, n)
    ensures NoLeaves(t1, 2, 0) <==> forall v :: v in t.leaf ==> v < n
    ensures (NoLeaves(t1, 2, 0) ==> t1.leaf == map[]) && (Typed(t) ==> Typed(t1))
  {
    forall v: nat ensures v in t1.leaf <==> v in t.leaf && v >= n {
      assert Lookup(t1.leaf, v) == if v < n then None else Lookup(t.leaf, v);
    }
    forall v | v in t1.leaf ensures t1.leaf[v] == t.leaf[v] { assert Lookup(t1.leaf, v) == Lookup(t.leaf, v); }
    assert forall v :: v in t1.leaf ==> Under(2, 0, v);
  }

  lemma RootSub(t: Table)
    ensures HasAt(t, 2, 0) && PageAt(t, 2, 0) == t.root && Sub(t, 2, 0) == TablePages(t)
  {
  }

  /** Everything the table held is on the free list, once. */
  lemma AllReturned(m0: Memory, f0: seq<nat>, t: Table, m1: Memory, f1: seq<nat>, t1: Table, f2: seq<nat>)
    requires Moved(m0, f0, t, m1, f1, t1) && TablePages(t1) == TablePages(t) && t1.leaf == map[]
    requires Elems(f2) == Elems(f1) + TablePages(t1) && Distinct(f0) && Distinct(f2)
    requires UserPages(t) !! Busy(t, f0) && Elems(f0) !! TablePages(t)
    ensures Elems(f2) == Elems(f0) + TablePages(t) + UserPages(t) && |f2| == |f0| + |TablePages(t)| + |UserPages(t)|
  {
    hide TablePages, Distinct, Elems;
    assert UserPages(t1) == {};
    assert All(t1, f1) == All(t, f0);
    DistinctSize(f0);
    DistinctSize(f2);
  }

  lemma Moved3(m0: Memory, f0: seq<nat>, t: Table, m1: Memory, f1: seq<nat>, t1: Table)
    requires Moved(m0, f0, t, m1, f1, t1)
    ensures m1.Keys == m0.Keys && forall p :: p in m0 && p !in All(t, f0) ==> m1[p] == m0[p]
  {
  }

  class Machine {
    const lo: nat  // end of the kernel
    const hi: nat  // PHYSTOP
    var mem: Memory
    var freelist: nat
    ghost var free: seq<nat>

    ghost predicate Pool(p: nat) { p % PGSIZE == 0 && 0 < lo <= p < hi }

    ghost predicate FreeOk()
      reads this
    {
      && Chain(mem, freelist, free) && Distinct(free)
      && (forall i :: 0 <= i < |free| ==> Pool(free[i]) && IsPage(mem, free[i]))
    }

    constructor (lo: nat, hi: nat, mem: Memory)
      requires 0 < lo
      ensures this.lo == lo && this.hi == hi && this.mem == mem && FreeOk() && free == []
    {
      this.lo, this.hi, this.mem, freelist, free := lo, hi, mem, 0, [];
    }

    method Kalloc() returns (r: nat)
      requires FreeOk()
      modifies this
      ensures FreeOk()
      ensures r == 0 <==> old(free) == []
      ensures r == 0 ==> mem == old(mem) && free == old(free)
      ensures r != 0 ==> r == old(free)[0] && free == old(free)[1..] && mem == old(mem)[r := Fill(JUNK5)]
    {
      r := freelist;
      if r != 0 {
        ghost var m0 := mem;
        freelist := mem[r][0];
        free := free[1..];
        mem := mem[r := Fill(JUNK5)];
        assert r !in Elems(free);
        ChainFrame(m0, mem, freelist, free);
      }
    }

    /** kfree of a page the caller owns; false when it panics. */
    method Kfree(pa: nat) returns (ok: bool)
      requires FreeOk() && 0 < lo && pa !in free && (Pool(pa) ==> IsPage(mem, pa))
      modifies this
      ensures FreeOk()
      ensures ok <==> pa % 4096 == 0 && lo <= pa < hi
      ensures !ok ==> mem == old(mem) && free == old(free)
      ensures ok ==> free == [pa] + old(free) && mem.Keys == old(mem).Keys
                     && forall p :: p in mem && p != pa ==> mem[p] == old(mem)[p]
    {
      if pa % PGSIZE != 0 || pa < lo || pa >= hi { return false; }
      ghost var m0 := mem;
      mem := mem[pa := Fill(JUNK1)];
      mem := Poke(mem, pa, 0, freelist);
      assert pa !in Elems(free);
      ChainFrame(m0, mem, freelist, free);
      freelist := pa;
      free := [pa] + free;
      assert free[1..] == old(free);
      ok := true;
    }

    /** Memory holds the page table t, whose pages come from the pool and are not free. */
    ghost predicate Good(t: Table)
      reads this
    {
      && FreeOk() && Holds(mem, t) && Elems(free) !! TablePages(t)
      && forall p <- TablePages(t) :: Pool(p) && IsPage(mem, p)
    }

    /** t is a process's page table: its user pages are its own, come from the pool and are
        neither free nor tables. */
    ghost predicate Sound(t: Table)
      reads this
    {
      && Good(t) && UserInjective(t) && UserPages(t) !! Busy(t, free)
      && forall p <- UserPages(t) :: Pool(p) && IsPage(mem, p)
    }

    /** walk's allocation of a missing table below page p. */
    method NewTable(p: nat, level: nat, va: nat, ghost t: Table) returns (q: nat, ghost t': Table)
      requires Good(t) && va < MAXVA && 1 <= level <= 2 && Reached(t, va, level, p)
      requires IsPage(mem, p) && p in TablePages(t) && Px(level, va) < 512 && !V(mem[p][Px(level, va)])
      modifies this
      ensures Good(t') && Grown(t, t') && Conserved(old(mem), old(free), t, mem, free, t')
      ensures q != 0 ==> Reached(t', va, level - 1, q) && t' == Extended(t, va, level, q) && |free| == |old(free)| - 1
      ensures q == 0 <==> old(free) == []
      ensures q == 0 ==> free == [] && t' == t && mem == old(mem) && free == old(free)
    {
      hide Holds, Px, Reached, Chain, Pte, TablePages;
      t' := t;
      q := Kalloc();
      if q == 0 { return; }
      assert q in Elems(old(free)) && Elems(old(free)) == Elems(free) + {q};
      mem := mem[q := ZeroPage()];
      Frame(old(mem), mem, t);
      t' := Extended(t, va, level, q);
      ExtendOk(mem, t, va, level, p, q);
      mem := Poke(mem, p, Px(level, va), Pte(q, 1));
      ChainFrame(old(mem)[q := Fill(JUNK5)], mem, freelist, free);
    }

    /** One level of walk. */
    method WalkStep(p: nat, level: nat, va: nat, alloc: bool, ghost t: Table) returns (q: nat, ghost t': Table)
      requires Good(t) && va < MAXVA && 1 <= level <= 2 && Reached(t, va, level, p)
      modifies this
      ensures Good(t') && Grown(t, t') && Conserved(old(mem), old(free), t, mem, free, t')
      ensures q != 0 ==> Reached(t', va, level - 1, q)
      ensures q == 0 <==> !HasTable(t, va, level - 1) && (alloc ==> old(free) == [])
      ensures q != 0 ==> if HasTable(t, va, level - 1) then t' == t && free == old(free)
                         else t' == Extended(t, va, level, q) && |free| == |old(free)| - 1
      ensures !alloc || q == 0 ==> t' == t && mem == old(mem) && free == old(free)
    {
      hide Holds, Px, Chain, TablePages, Distinct;
      t' := t;
      WalkEntry(mem, t, va, level, p);
      var pte := mem[p][Px(level, va)];
      if V(pte) {
        q := PtePa(pte);
        ReachedPage(mem, t, va, level - 1, q);
      } else {
        q := 0;
        if alloc {
          q, t' := NewTable(p, level, va, t);
        }
      }
    }

    /** walk: the slot of the word for va, Null when a table is missing, Halt when it panics. */
    method Walk(pagetable: nat, va: nat, alloc: bool, ghost t: Table) returns (s: Slot, ghost t': Table)
      requires Good(t) && pagetable == t.root
      modifies this
      ensures Good(t') && Grown(t, t') && Conserved(old(mem), old(free), t, mem, free, t')
      ensures s.Halt? <==> va >= MAXVA
      ensures s.At? ==> Reached(t', va, 0, s.page) && s.index == Px(0, va)
      ensures s.Null? ==> !HasTable(t, va, 0) && (alloc ==> free == [])
      ensures !alloc && va < MAXVA ==> (s.At? <==> HasTable(t, va, 0))
      ensures alloc && va < MAXVA ==> (s.At? <==> Missing(t, va / PGSIZE) <= |old(free)|)
      ensures alloc && s.At? ==> |free| == |old(free)| - Missing(t, va / PGSIZE) && Tabled(t, t', {va / PGSIZE})
      ensures !alloc || s.Halt? ==> t' == t && mem == old(mem) && free == old(free)
    {
      hide Holds, Px, Chain, TablePages, Distinct, Reached, HasTable, FreeOk, Missing, Tabled, Extended;
      t' := t;
      if va >= MAXVA { return Halt, t; }
      var p, level := pagetable, 2;
      assert Reached(t, va, 2, p) by { RootReached(t, va); }
      while level > 0
        invariant 0 <= level <= 2 && Good(t') && Grown(t, t') && Reached(t', va, level, p)
        invariant Conserved(old(mem), old(free), t, mem, free, t')
        invariant Spent(t, t', va / PGSIZE, level, |old(free)|, |free|)
        invariant !alloc ==> t' == t && mem == old(mem) && free == old(free)
      {
        ghost var (m1, f1, t1) := (mem, free, t');
        p, t' := WalkStep(p, level, va, alloc, t');
        ConservedTrans(old(mem), old(free), t, m1, f1, t1, mem, free, t');
        if p == 0 {
          HasBoth(old(mem), t, t1, va, level);
          if alloc { SpentOut(t, t1, va, level, |old(free)|); }
          return Null, t';
        }
        SpentStep(t, t1, t', va, level, p, |old(free)|, |f1|, |free|);
        level := level - 1;
      }
      HasReached(t', va, p);
      SpentAll(t, t', va / PGSIZE, |old(free)|, |free|);
      s := At(p, Px(0, va));
    }

    /** walkaddr: the flat map restricted to user pages. */
    method Walkaddr(pagetable: nat, va: nat, ghost t: Table) returns (pa: nat)
      requires Good(t) && pagetable == t.root
      modifies this
      ensures mem == old(mem) && free == old(free) && Good(t)
      ensures va < MAXVA && va / PGSIZE in t.leaf && HasBit(t.leaf[va / PGSIZE].flags, 16) ==>
                pa == t.leaf[va / PGSIZE].pa
      ensures !(va < MAXVA && va / PGSIZE in t.leaf && HasBit(t.leaf[va / PGSIZE].flags, 16)) ==> pa == 0
    {
      hide Holds, Px, Chain, TablePages, Distinct, V, U, PtePa, PteFlags, LeafWord, HasBit;
      if va >= MAXVA { return 0; }
      if va / PGSIZE in t.leaf { FlagMeaning(t.leaf[va / PGSIZE].flags); }
      ghost var t';
      var s;
      s, t' := Walk(pagetable, va, false, t);
      if s.Null? {
        NoLowNoLeaf(mem, t, va);
        return 0;
      }
      SlotWord(mem, t, va, s.page);
      var pte := mem[s.page][s.index];
      if !V(pte) { return 0; }
      if !U(pte) { return 0; }
      pa := PtePa(pte);
    }

    /** One round of mappages. */
    method MapOne(pagetable: nat, a: nat, pa: nat, perm: nat, ghost t: Table) returns (r: MapResult, ghost t': Table)
      requires Good(t) && pagetable == t.root && perm < 1024
      modifies this
      ensures Good(t') && t'.root == t.root && Conserved(old(mem), old(free), t, mem, free, t')
      ensures r == Panicked <==> a >= MAXVA || a / PGSIZE in t.leaf
      ensures r == NoMemory ==> free == []
      ensures r == NoMemory <==> a < MAXVA && |old(free)| < Missing(t, a / PGSIZE)
      ensures r != NoMemory && a < MAXVA ==> |free| == |old(free)| - Missing(t, a / PGSIZE)
      ensures r != NoMemory && a < MAXVA ==> Tabled(t, t', {a / PGSIZE})
      ensures t'.leaf == if r == Mapped then t.leaf[a / PGSIZE := Leaf(Base(pa), WithV(perm))] else t.leaf
    {
      hide Holds, Px, Chain, TablePages, Distinct, V, U, PtePa, PteFlags, LeafWord, Pte, Base, Reached, Missing;
      var s;
      s, t' := Walk(pagetable, a, true, t);
      if s.Halt? { return Panicked, t'; }
      if s.Null? {
        NoLowNoLeaf(old(mem), t, a);
        return NoMemory, t';
      }
      SlotWord(mem, t', a, s.page);
      if V(mem[s.page][s.index]) { return Panicked, t'; }
      ghost var t1 := t';
      ghost var m1 := mem;
      BasePte(t1.leaf, a / PGSIZE, pa, WithV(perm));
      WithVOk(perm);
      t' := t'.(leaf := t'.leaf[a / PGSIZE := Leaf(Base(pa), WithV(perm))]);
      SlotWrite(mem, t1, a, s.page, t'.leaf);
      mem := Poke(mem, s.page, s.index, Pte(pa, WithV(perm)));
      SameTables(t1, t');
      ChainFrame(m1, mem, freelist, free);
      r := Mapped;
    }

    /** mappages: k pages were mapped; the rest of the range, if any, was not. */
    method Mappages(pagetable: nat, va: nat, size: nat, pa: nat, perm: nat, ghost t: Table)
      returns (r: MapResult, ghost k: nat, ghost t': Table)
      requires Good(t) && pagetable == t.root && perm < 1024
      modifies this
      ensures Good(t') && t'.root == t.root && Conserved(old(mem), old(free), t, mem, free, t')
      ensures AddsRange(t.leaf, t'.leaf, va / PGSIZE, k, Base(pa), WithV(perm))
      ensures forall w :: va / PGSIZE <= w < va / PGSIZE + k ==> w !in t.leaf
      ensures va % PGSIZE != 0 || size % PGSIZE != 0 || size == 0 ==> r == Panicked && k == 0
      ensures r == Mapped ==> k == size / PGSIZE && va + size <= MAXVA
      ensures r == NoMemory ==> free == [] && k < size / PGSIZE
      ensures r == NoMemory ==> |old(free)| < Tables(t, Interval(va / PGSIZE, va / PGSIZE + k + 1))
      ensures r == Mapped ==> Paid(t, t', Interval(va / PGSIZE, va / PGSIZE + k), |old(free)|, |free|)
      ensures r == Panicked && va % PGSIZE == 0 && size % PGSIZE == 0 && size > 0 ==>
                k < size / PGSIZE && (va / PGSIZE + k >= VPNS || va / PGSIZE + k in t.leaf)
    {
      hide Good, Conserved, Base, WithV, Missing, Tables, Tabled, Interval, Paid, Mapping, AddsRange;
      t', k := t, 0;
      ghost var (v, b, f) := (va / PGSIZE, Base(pa), WithV(perm));
      MappingNone(mem, free, t, v, b, f);
      MappingParts(mem, free, t, mem, free, t, v, 0, b, f);
      if va % PGSIZE != 0 || size % PGSIZE != 0 || size == 0 { return Panicked, 0, t; }
      var a, last, p := va, va + size - PGSIZE, pa;
      while true
        invariant k < size / PGSIZE && a == va + k * PGSIZE && p == pa + k * PGSIZE
        invariant Good(t') && t'.root == t.root && Mapping(old(mem), old(free), t, mem, free, t', v, k, b, f)
        invariant k == 0 || a <= MAXVA
        decreases size / PGSIZE - k
      {
        PageStep(va, k);
        BaseStep(pa, k);
        ghost var (m1, f1, t1) := (mem, free, t');
        MappingNext(old(mem), old(free), t, m1, f1, t1, v, k, b, f);
        r, t' := MapOne(pagetable, a, p, perm, t');
        if r != Mapped {
          MappingStop(old(mem), old(free), t, m1, f1, t1, v, k, b, f, mem, free, t');
          return r, k, t';
        }
        MappingStep(old(mem), old(free), t, m1, f1, t1, v, k, b, f, mem, free, t');
        k := k + 1;
        if a == last {
          MappingParts(old(mem), old(free), t, mem, free, t', v, k, b, f);
          return Mapped, k, t';
        }
        a, p := a + PGSIZE, p + PGSIZE;
      }
    }

    /** *pte = 0. */
    method ClearSlot(p: nat, i: nat, a: nat, ghost t: Table) returns (ghost t': Table)
      requires Good(t) && a < MAXVA && Reached(t, a, 0, p) && i == Px(0, a)
      modifies this
      ensures Good(t') && t' == t.(leaf := t.leaf - {a / PGSIZE}) && TablePages(t') == TablePages(t)
      ensures free == old(free) && OnlyTables(old(mem), mem, t)
    {
      hide Holds, Px, Chain, Distinct, TablePages, V, U, PtePa, PteFlags, LeafWord, Pte, Reached;
      SlotWord(mem, t, a, p);
      t' := t.(leaf := t.leaf - {a / PGSIZE});
      ClearedWord(t.leaf, a / PGSIZE);
      SlotWrite(mem, t, a, p, t'.leaf);
      mem := Poke(mem, p, i, 0);
      SameTables(t, t');
      ChainFrame(old(mem), mem, freelist, free);
    }

    /** One round of uvmunmap. */
    method UnmapOne(pagetable: nat, a: nat, doFree: bool, ghost t: Table) returns (ok: bool, ghost t': Table)
      requires Sound(t) && pagetable == t.root
      requires doFree && a / PGSIZE in t.leaf ==> a / PGSIZE < USERV
      modifies this
      ensures ok <==> a < MAXVA
      ensures ok ==> Sound(t') && t' == t.(leaf := t.leaf - {a / PGSIZE}) && UserPages(t') <= UserPages(t)
      ensures ok && doFree ==> Moved(old(mem), old(free), t, mem, free, t')
      ensures ok && !doFree ==> free == old(free) && OnlyTables(old(mem), mem, t)
    {
      hide Holds, Px, Chain, Distinct, TablePages, V, U, PtePa, PteFlags, LeafWord, Pte, Reached;
      hide UserPages, UserInjective;
      var s;
      s, t' := Walk(pagetable, a, false, t);
      if s.Halt? { return false, t'; }
      ok := true;
      if s.Null? {
        NoLowNoLeaf(mem, t, a);
        return true, t;
      }
      SlotWord(mem, t, a, s.page);
      if !V(mem[s.page][s.index]) { return true, t; }
      ghost var v := a / PGSIZE;
      UserRemove(t, v);
      ghost var m0 := mem;
      if doFree {
        UserPage(t, v);
        ok := Kfree(PtePa(mem[s.page][s.index]));
        Frame(m0, mem, t);
      }
      t' := ClearSlot(s.page, s.index, a, t);
    }

    /** uvmunmap; false when it panics. */
    method Uvmunmap(pagetable: nat, va: nat, npages: nat, doFree: bool, ghost t: Table)
      returns (ok: bool, ghost t': Table)
      requires Sound(t) && pagetable == t.root && va + npages * PGSIZE < 0x1_0000_0000_0000_0000
      requires doFree ==> forall w :: w in t.leaf && va / PGSIZE <= w < va / PGSIZE + npages ==> w < USERV
      modifies this
      ensures ok <==> va % PGSIZE == 0 && (npages == 0 || va + npages * PGSIZE <= MAXVA)
      ensures ok ==> Sound(t') && t' == t.(leaf := t'.leaf) && RemovesRange(t.leaf, t'.leaf, va / PGSIZE, npages)
      ensures ok ==> UserPages(t') <= UserPages(t)
      ensures ok && doFree ==> Moved(old(mem), old(free), t, mem, free, t')
      ensures ok && !doFree ==> free == old(free) && OnlyTables(old(mem), mem, t)
    {
      hide Good, Moved, OnlyTables, UserPages, UserInjective, Busy;
      t' := t;
      if va % PGSIZE != 0 { return false, t; }
      MovedRefl(mem, free, t);
      OnlyRefl(mem, t);
      var a := va;
      ghost var i: nat := 0;
      while a < va + npages * PGSIZE
        invariant i <= npages && a == va + i * PGSIZE && (i == 0 || a <= MAXVA)
        invariant Sound(t') && t' == t.(leaf := t'.leaf) && RemovesRange(t.leaf, t'.leaf, va / PGSIZE, i)
        invariant UserPages(t') <= UserPages(t)
        invariant doFree ==> Moved(old(mem), old(free), t, mem, free, t')
        invariant !doFree ==> free == old(free) && OnlyTables(old(mem), mem, t)
        decreases npages - i
      {
        PageStep(va, i);
        assert Lookup(t'.leaf, va / PGSIZE + i) == Lookup(t.leaf, va / PGSIZE + i);
        ghost var (m1, f1, t1) := (mem, free, t');
        ok, t' := UnmapOne(pagetable, a, doFree, t');
        if !ok { return false, t'; }
        RemovesOne(t.leaf, t1.leaf, va / PGSIZE, i);
        if doFree {
          MovedTrans(old(mem), old(free), t, m1, f1, t1, mem, free, t');
        } else {
          OnlyTrans(old(mem), m1, mem, t, t1);
        }
        i := i + 1;
        a := a + PGSIZE;
      }
      ok := true;
    }

    /** uvmdealloc; the panics of uvmunmap are out of reach here. */
    method Uvmdealloc(pagetable: nat, oldsz: nat, newsz: nat, ghost t: Table) returns (r: nat, ghost t': Table)
      requires Sound(t) && pagetable == t.root && oldsz <= USERV * PGSIZE
      modifies this
      ensures r == if newsz < oldsz then newsz else oldsz
      ensures Sound(t') && t' == t.(leaf := t'.leaf) && Moved(old(mem), old(free), t, mem, free, t')
      ensures UserPages(t') <= UserPages(t)
      ensures forall w: nat :: Lookup(t'.leaf, w) == if Up(newsz) <= w < Up(oldsz) then None else Lookup(t.leaf, w)
    {
      hide Sound, Moved, UserPages;
      t' := t;
      MovedRefl(mem, free, t);
      if newsz >= oldsz { return oldsz, t; }
      if Up(newsz) * PGSIZE < Up(oldsz) * PGSIZE {
        var npages := (Up(oldsz) * PGSIZE - Up(newsz) * PGSIZE) / PGSIZE;
        var ok;
        ok, t' := Uvmunmap(pagetable, Up(newsz) * PGSIZE, npages, true, t);
      }
      r := newsz;
    }

    lemma SoundParts(t: Table, v: nat)
      requires Sound(t)
      ensures Good(t) && UserInjective(t) && UserPages(t) !! Busy(t, free)
      ensures v in t.leaf ==> Missing(t, v) == 0
    {
      GoodTabled(t, v);
    }

    lemma GoodTabled(t: Table, v: nat)
      requires Good(t)
      ensures v in t.leaf ==> Missing(t, v) == 0
    {
      LeafTabled(mem, t, v);
    }

    /** kalloc, then fill the page. */
    method TakePage(content: seq<nat>, ghost t: Table) returns (pa: nat)
      requires Good(t) && |content| == 512
      modifies this
      ensures Good(t)
      ensures pa == 0 <==> old(free) == []
      ensures pa == 0 ==> mem == old(mem) && free == old(free)
      ensures pa != 0 ==> && pa == old(free)[0] && free == old(free)[1..] && mem == old(mem)[pa := content]
                          && pa !in Busy(t, free) && Busy(t, old(free)) == Busy(t, free) + {pa}
                          && Pool(pa) && IsPage(mem, pa) && IsPage(old(mem), pa)
    {
      hide Holds, Chain, TablePages;
      pa := Kalloc();
      if pa == 0 { return; }
      assert Elems(old(free)) == Elems(free) + {pa};
      assert pa !in Elems(free);
      ghost var m1 := mem;
      mem := mem[pa := content];
      Frame(old(mem), mem, t);
      ChainFrame(m1, mem, freelist, free);
    }

    /** Give back a page that the table does not use. */
    method DropPage(pa: nat, ghost t: Table)
      requires Good(t) && pa !in Busy(t, free) && Pool(pa) && IsPage(mem, pa)
      modifies this
      ensures Good(t) && free == [pa] + old(free) && mem.Keys == old(mem).Keys
      ensures Busy(t, free) == Busy(t, old(free)) + {pa}
      ensures forall p :: p in mem && p != pa ==> mem[p] == old(mem)[p]
    {
      hide Holds, Chain, TablePages, Distinct;
      var ok := Kfree(pa);
      Frame(old(mem), mem, t);
    }

    /** mappages of a single page. */
    method MapPage(pagetable: nat, a: nat, pa: nat, perm: nat, ghost t: Table)
      returns (r: MapResult, ghost t': Table)
      requires Good(t) && pagetable == t.root && a % PGSIZE == 0 && a / PGSIZE < USERV
      requires pa % PGSIZE == 0 && perm < 1024
      modifies this
      ensures r == NoMemory <==> |old(free)| < Missing(t, a / PGSIZE)
      ensures r == Panicked <==> a / PGSIZE in t.leaf
      ensures Good(t') && t'.root == t.root && Conserved(old(mem), old(free), t, mem, free, t')
      ensures t'.leaf == if r == Mapped then t.leaf[a / PGSIZE := Leaf(pa, WithV(perm))] else t.leaf
      ensures r == Mapped ==> |free| == |old(free)| - Missing(t, a / PGSIZE) && Tabled(t, t', {a / PGSIZE})
    {
      hide Good, Conserved, WithV, Base, Missing, Tables, Tabled, Interval, AddsRange;
      GoodTabled(t, a / PGSIZE);
      IntervalAdd(a / PGSIZE, a / PGSIZE);
      TablesOne(t, a / PGSIZE);
      BasePage(pa);
      ghost var k;
      r, k, t' := Mappages(pagetable, a, PGSIZE, pa, perm, t);
      OneOrNone(t.leaf, t'.leaf, a / PGSIZE, k, pa, WithV(perm));
    }

    /** Allocate a page with the given contents and map it at a; the page goes back when mapping fails. */
    method AddPage(pagetable: nat, a: nat, content: seq<nat>, perm: nat, ghost t: Table)
      returns (r: MapResult, ghost t': Table)
      requires Sound(t) && pagetable == t.root && a % PGSIZE == 0 && a / PGSIZE < USERV && |content| == 512
      requires perm < 1024
      modifies this
      ensures r == NoMemory <==> |old(free)| < 1 + Missing(t, a / PGSIZE)
      ensures r == Panicked <==> a / PGSIZE in t.leaf && old(free) != []
      ensures r == Mapped ==> PageBought(t, t', a / PGSIZE, |old(free)|, |free|)
      ensures r != Panicked ==> Sound(t') && t'.root == t.root && Moved(old(mem), old(free), t, mem, free, t')
      ensures r == NoMemory ==> t'.leaf == t.leaf
      ensures r == Mapped ==>
                var v := a / PGSIZE;
                && v !in t.leaf && v in t'.leaf && t'.leaf == t.leaf[v := t'.leaf[v]] && t'.leaf[v].flags == WithV(perm)
                && IsPage(mem, t'.leaf[v].pa) && mem[t'.leaf[v].pa] == content
                && UserPages(t') == UserPages(t) + {t'.leaf[v].pa}
    {
      hide Good, UserPages, UserInjective, Busy, Conserved, Moved, WithV, Missing, Tabled;
      SoundParts(t, a / PGSIZE);
      t' := t;
      MovedRefl(mem, free, t);
      var pa := TakePage(content, t);
      if pa == 0 { return NoMemory, t; }
      ghost var (m1, f1) := (mem, free);
      r, t' := MapPage(pagetable, a, pa, perm, t);
      if r == NoMemory {
        ConservedPage(m1, f1, t, mem, free, t', pa);
        ghost var (m2, f2) := (mem, free);
        DropPage(pa, t');
        Returned(old(mem), old(free), t, m1, f1, m2, f2, t', mem, free, pa);
      } else if r == Mapped {
        Gained(old(mem), old(free), t, m1, f1, mem, free, t', a / PGSIZE, content);
      }
    }

    /** uvmalloc.  Failed stands for its return value 0 on lack of memory. */
    method Uvmalloc(pagetable: nat, oldsz: nat, newsz: nat, xperm: nat, ghost t: Table)
      returns (r: SizeResult, ghost t': Table)
      requires Sound(t) && pagetable == t.root && newsz <= USERV * PGSIZE && xperm in {0, 4, 8, 12}
      modifies this
      ensures newsz < oldsz ==> r == Size(oldsz) && t' == t && mem == old(mem) && free == old(free)
      ensures r.Stopped? ==>
                exists w: nat :: && Up(oldsz) <= w < Up(newsz) && w in t.leaf
                                 && Need(t, Interval(Up(oldsz), w)) < |old(free)|
      ensures !r.Stopped? ==> Sound(t') && t'.root == t.root && Moved(old(mem), old(free), t, mem, free, t')
      ensures r.Size? && newsz >= oldsz ==>
                r == Size(newsz) && Holding(t.leaf, t'.leaf, mem, Zeroed(Up(oldsz), Up(newsz), 19 + xperm))
      ensures r.Size? && newsz >= oldsz ==> |free| == |old(free)| - Need(t, Interval(Up(oldsz), Up(newsz)))
      ensures r.Failed? ==> t'.leaf == t.leaf && Busy(t', free) == Busy(t, old(free))
      ensures r.Failed? ==> |old(free)| < Need(t, Interval(Up(oldsz), Up(newsz)))
    {
      hide Good, UserPages, UserInjective, Busy, Moved, Holding, Zeroed, Bought, Need, Missing, Tabled, Interval;
      t' := t;
      MovedRefl(mem, free, t);
      if newsz < oldsz { return Size(oldsz), t; }
      var start := Up(oldsz) * PGSIZE;
      var a := start;
      ghost var v := Up(oldsz);
      HoldingNone(t.leaf, mem, v, 19 + xperm);
      IntervalAdd(v, v);
      BoughtNone(t, |free|);
      while a < newsz
        invariant a == v * PGSIZE && Up(oldsz) <= v && (v == Up(oldsz) || v <= Up(newsz))
        invariant Sound(t') && t'.root == t.root && Moved(old(mem), old(free), t, mem, free, t')
        invariant Holding(t.leaf, t'.leaf, mem, Zeroed(Up(oldsz), v, 19 + xperm))
        invariant Bought(t, t', Interval(Up(oldsz), v), |old(free)|, |free|)
        decreases newsz - a
      {
        ghost var (m1, f1, t1) := (mem, free, t');
        HoldingGrows(t, t1, mem, Zeroed(Up(oldsz), v, 19 + xperm));
        var r0;
        r0, t' := AddPage(pagetable, a, ZeroPage(), 18 + xperm, t');
        if r0 == Panicked {
          BoughtNeed(t, t1, Interval(Up(oldsz), v), |old(free)|, |f1|);
          ZeroedAbsent(t.leaf, t1.leaf, m1, Up(oldsz), v, 19 + xperm);
          return Stopped, t';
        }
        if r0 == NoMemory {
          RangeOut(t, t1, Up(oldsz), v, Up(newsz), |old(free)|, |f1|);
          UserSame(t1, t');
          MovedTrans(old(mem), old(free), t, m1, f1, t1, mem, free, t');
          ghost var (m2, f2, t2) := (mem, free, t');
          var n;
          n, t' := Uvmdealloc(pagetable, a, start, t');
          ZeroedKeys(Up(oldsz), v, 19 + xperm);
          UndoGrowth(old(mem), old(free), t, m2, f2, t2, mem, free, t', m1,
                     Zeroed(Up(oldsz), v, 19 + xperm), Up(oldsz), v);
          return Failed, t';
        }
        PermV(xperm);
        RangeBought(t, t1, t', Up(oldsz), v, |old(free)|, |f1|, |free|);
        MovedTrans(old(mem), old(free), t, m1, f1, t1, mem, free, t');
        ZeroedStep(t.leaf, t1, m1, f1, t', mem, free, Up(oldsz), v, 19 + xperm);
        v := v + 1;
        a := a + PGSIZE;
      }
      BoughtNeed(t, t', Interval(Up(oldsz), v), |old(free)|, |free|);
      r := Size(newsz);
    }

    /** The part of Sound that is about the table's own pages. */
    ghost predicate Whole(m: Memory, o: Table) {
      && Holds(m, o) && UserInjective(o) && UserPages(o) !! TablePages(o)
      && forall p <- Mine(o) :: Pool(p) && IsPage(m, p)
    }

    lemma SoundWhole(o: Table)
      requires Sound(o)
      ensures Whole(mem, o)
    {
    }

    /** A table whose pages nobody else holds is still sound after work on another table. */
    lemma StillSound(m0: Memory, o: Table, t: Table)
      requires Good(t) && Whole(m0, o) && SamePages(m0, mem, Mine(o)) && Mine(o) !! All(t, free)
      ensures Sound(o)
    {
      hide Holds, Chain, Distinct, TablePages, UserPages, UserInjective;
      Frame(m0, mem, o);
    }

    lemma MineIn(m: Memory, o: Table)
      requires Whole(m, o)
      ensures forall p <- Mine(o) :: p in m
      ensures SamePages(m, m, Mine(o))
    {
    }

    /** One round of uvmcopy. */
    method CopyOne(parent: nat, child: nat, i: nat, ghost o: Table, ghost t: Table)
      returns (r: MapResult, ghost t': Table)
      requires Sound(o) && Sound(t) && parent == o.root && child == t.root && Mine(o) !! All(t, free)
      requires i % PGSIZE == 0 && i / PGSIZE < USERV
      modifies this
      ensures r == Panicked <==> i / PGSIZE in o.leaf && i / PGSIZE in t.leaf && old(free) != []
      ensures r == NoMemory <==> i / PGSIZE in o.leaf && |old(free)| < 1 + Missing(t, i / PGSIZE)
      ensures r != Panicked ==> Sound(t') && t'.root == t.root && Moved(old(mem), old(free), t, mem, free, t')
      ensures r != Panicked ==> UserPages(t) <= UserPages(t')
      ensures r == NoMemory ==> t'.leaf == t.leaf
      ensures i / PGSIZE !in o.leaf ==> t' == t && free == old(free)
      ensures r == Mapped && i / PGSIZE in o.leaf ==>
                PageCopied(o, t, t', old(mem), mem, i / PGSIZE) && PageBought(t, t', i / PGSIZE, |old(free)|, |free|)
    {
      hide Holds, Chain, Distinct, TablePages, UserPages, UserInjective, Px, V, U, PtePa, PteFlags, LeafWord;
      hide Reached, Moved, HasTable, WithV, Missing, Tabled;
      t' := t;
      MovedRefl(mem, free, t);
      var s;
      ghost var o';
      s, o' := Walk(parent, i, false, o);
      if s.Null? {
        NoLowNoLeaf(mem, o, i);
        return Mapped, t;
      }
      SlotWord(mem, o, i, s.page);
      var pte := mem[s.page][s.index];
      if !V(pte) { return Mapped, t; }
      UserPage(o, i / PGSIZE);
      LeafFlags(mem, o, i / PGSIZE);
      r, t' := AddPage(child, i, mem[PtePa(pte)], PteFlags(pte), t);
      UserSame(t.(leaf := t'.leaf), t');
    }

    /** uvmcopy; it panics on a page that the child has too.  On lack of memory it takes away all the child's
        pages below page n, the first one that the free pages did not pay for; these are the copies if the
        child had none of its own there. */
    method Uvmcopy(parent: nat, child: nat, sz: nat, ghost o: Table, ghost t: Table)
      returns (r: MapResult, ghost n: nat, ghost t': Table)
      requires Sound(o) && Sound(t) && parent == o.root && child == t.root && Mine(o) !! All(t, free)
      requires sz <= USERV * PGSIZE
      modifies this
      ensures r == Panicked ==> exists w: nat :: && w < Up(sz) && w in o.leaf && w in t.leaf
                                                 && Need(t, Below(o.leaf, w)) < |old(free)|
      ensures r != Panicked ==> Sound(t') && t'.root == t.root && Moved(old(mem), old(free), t, mem, free, t')
      ensures r != Panicked ==> Sound(o) && SamePages(old(mem), mem, Mine(o)) && Mine(o) !! All(t', free)
      ensures r == Mapped ==> Holding(t.leaf, t'.leaf, mem, Copied(old(mem), o.leaf, Up(sz)))
      ensures r == Mapped ==> |free| == |old(free)| - Need(t, Below(o.leaf, Up(sz)))
      ensures r == NoMemory ==> n < Up(sz) && n in o.leaf && ClearedBelow(t.leaf, t'.leaf, n)
      ensures r == NoMemory ==>
                && Need(t, Below(o.leaf, n)) <= |old(free)| < Need(t, Below(o.leaf, n + 1))
                && Need(t, Below(o.leaf, n + 1)) <= Need(t, Below(o.leaf, Up(sz)))
      ensures r == NoMemory && (forall w: nat :: w < n ==> w !in t.leaf) ==>
                t'.leaf == t.leaf && Busy(t', free) == Busy(t, old(free))
    {
      hide Good, UserPages, UserInjective, Busy, TablePages, Moved, Holding, Copied, All, Mine, Whole;
      hide Bought, Need, Missing, Tabled, Below, ClearedBelow;
      t', n := t, 0;
      BelowNext(o.leaf, 0);
      BoughtNone(t, |free|);
      SoundWhole(o);
      MineIn(mem, o);
      MovedRefl(mem, free, t);
      CopiedNone(t.leaf, mem, o.leaf);
      var i := 0;
      ghost var v: nat := 0;
      assert SamePages(old(mem), mem, Mine(o));
      while i < sz
        invariant i == v * PGSIZE && v <= Up(sz)
        invariant Sound(t') && t'.root == t.root && Moved(old(mem), old(free), t, mem, free, t')
        invariant Sound(o) && SamePages(old(mem), mem, Mine(o)) && Mine(o) !! All(t', free)
        invariant Holding(t.leaf, t'.leaf, mem, Copied(old(mem), o.leaf, v))
        invariant Bought(t, t', Below(o.leaf, v), |old(free)|, |free|)
        decreases sz - i
      {
        ghost var (m1, f1, t1) := (mem, free, t');
        CopiedKeys(old(mem), o.leaf, v);
        CopiedNext(t.leaf, t1.leaf, m1, old(mem), o.leaf, v);
        HoldingGrows(t, t1, m1, Copied(old(mem), o.leaf, v));
        r, t' := CopyOne(parent, child, i, o, t');
        if r == Panicked {
          BoughtNeed(t, t1, Below(o.leaf, v), |old(free)|, |f1|);
          return r, v, t';
        }
        MovedTrans(old(mem), old(free), t, m1, f1, t1, mem, free, t');
        OthersKept(m1, f1, t1, mem, free, t', Mine(o));
        SameTrans(old(mem), m1, mem, Mine(o));
        StillSound(old(mem), o, t');
        if r == NoMemory {
          BelowOut(t, t1, o.leaf, v, Up(sz), |old(free)|, |f1|);
          UserSame(t1, t');
          ghost var (m2, f2, t2) := (mem, free, t');
          var ok;
          ok, t' := Uvmunmap(child, 0, i / PGSIZE, true, t');
          OthersKept(m2, f2, t2, mem, free, t', Mine(o));
          SameTrans(old(mem), m2, mem, Mine(o));
          StillSound(old(mem), o, t');
          MovedTrans(old(mem), old(free), t, m2, f2, t2, mem, free, t');
          CopiedGone(t.leaf, t2.leaf, t'.leaf, m1, old(mem), o.leaf, v);
          if forall w: nat :: w < v ==> w !in t.leaf {
            UndoGrowth(old(mem), old(free), t, m2, f2, t2, mem, free, t', m1, Copied(old(mem), o.leaf, v), 0, v);
          }
          return NoMemory, v, t';
        }
        BelowBought(t, t1, t', o.leaf, v, |old(free)|, |f1|, |free|);
        if v in o.leaf {
          MinePage(o, v);
          CopiedStep(t.leaf, t1, m1, f1, t', mem, free, old(mem), o.leaf, v);
        } else {
          CopiedSkip(old(mem), o.leaf, v);
          HoldingSame(t.leaf, t1, m1, f1, t', mem, free, Copied(old(mem), o.leaf, v));
        }
        v := v + 1;
        i := i + PGSIZE;
      }
      BoughtNeed(t, t', Below(o.leaf, v), |old(free)|, |free|);
      r := Mapped;
    }

    /** freewalk has returned the pages below entry i of the table page p; the rest is as in m0. */
    ghost predicate Walked(m0: Memory, m: Memory, t: Table, level: nat, key: nat, i: nat)
      requires level <= 2 && HasAt(t, level, key)
    {
      var p := PageAt(t, level, key);
      && p in m0 && m.Keys == m0.Keys && |m0[p]| == 512 && |m[p]| == 512
      && (forall j: nat :: i <= j < 512 ==> m[p][j] == m0[p][j])
      && (forall q :: q in m0 && q != p && q !in Part(t, level, key, i) ==> m[q] == m0[q])
    }

    /** freewalk; false when it panics on a leaf. */
    method Freewalk(pagetable: nat, ghost m0: Memory, ghost t: Table, ghost level: nat, ghost key: nat)
      returns (ok: bool)
      requires FreeOk() && Holds(m0, t) && Typed(t) && level <= 2 && HasAt(t, level, key)
      requires pagetable == PageAt(t, level, key)
      requires SamePages(m0, mem, Sub(t, level, key)) && Sub(t, level, key) !! Elems(free)
      requires forall q <- Sub(t, level, key) :: Pool(q) && IsPage(mem, q)
      modifies this
      ensures ok <==> NoLeaves(t, level, key)
      ensures ok ==> FreeOk() && Elems(free) == Elems(old(free)) + Sub(t, level, key) && mem.Keys == old(mem).Keys
      ensures ok ==> forall q :: q in mem && q !in Sub(t, level, key) ==> mem[q] == old(mem)[q]
      decreases level
    {
      hide Holds, Chain, Distinct, Typed, HasAt, PageAt, Sub, Part, NoLeaves, ClearBelow, V, R, W, X, PtePa, Key;
      SubWhole(m0, t, level, key);
      ClearNone(t, level, key);
      var i := 0;
      while i < 512
        invariant 0 <= i <= 512 && FreeOk() && Elems(free) == Elems(old(free)) + Part(t, level, key, i)
        invariant Walked(old(mem), mem, t, level, key, i) && ClearBelow(t, level, key, i)
      {
        ok := FreeEntry(pagetable, i, m0, old(mem), old(free), t, level, key);
        if !ok { return; }
        i := i + 1;
      }
      AllClear(m0, t, level, key);
      ok := Kfree(pagetable);
    }

    /** One round of freewalk. */
    method FreeEntry(pagetable: nat, i: nat, ghost m0: Memory, ghost m1: Memory, ghost f1: seq<nat>, ghost t: Table,
                     ghost level: nat, ghost key: nat)
      returns (ok: bool)
      requires FreeOk() && Holds(m0, t) && Typed(t) && level <= 2 && HasAt(t, level, key)
      requires pagetable == PageAt(t, level, key)
      requires SamePages(m0, m1, Sub(t, level, key)) && Sub(t, level, key) !! Elems(f1)
      requires forall q <- Sub(t, level, key) :: Pool(q) && IsPage(m1, q)
      requires i < 512 && Elems(free) == Elems(f1) + Part(t, level, key, i)
      requires Walked(m1, mem, t, level, key, i) && ClearBelow(t, level, key, i)
      modifies this
      ensures !ok ==> !NoLeaves(t, level, key)
      ensures ok ==> FreeOk() && Elems(free) == Elems(f1) + Part(t, level, key, i + 1)
      ensures ok ==> Walked(m1, mem, t, level, key, i + 1) && ClearBelow(t, level, key, i + 1)
      decreases level, 0
    {
      hide Holds, Chain, Distinct, Typed, HasAt, PageAt, Sub, Part, NoLeaves, ClearBelow, V, R, W, X, PtePa, Key;
      assert |mem[pagetable]| == 512 && mem[pagetable][i] == m1[pagetable][i];
      SubWhole(m0, t, level, key);
      PartMono(t, level, key, i);
      Entry(m0, t, level, key, i);
      var pte := mem[pagetable][i];
      if V(pte) && !R(pte) && !W(pte) && !X(pte) {
        ghost var c := Key(key, i);
        PartStep(m0, t, level, key, i);
        PartMono(t, level, key, i + 1);
        ok := Freewalk(PtePa(pte), m0, t, level - 1, c);
        if !ok {
          LeafBelow(t, level, key, i);
          return;
        }
        WalkedChild(m1, old(mem), mem, t, level, key, i);
        ghost var m2 := mem;
        mem := Poke(mem, pagetable, i, 0);
        ChainFrame(m2, mem, freelist, free);
        ClearStep(t, level, key, i);
      } else if V(pte) {
        LeafHere(t, key, i);
        ok := false;
      } else {
        PartSkip(m0, t, level, key, i);
        WalkedSkip(m1, mem, t, level, key, i);
        ClearStep(t, level, key, i);
        ok := true;
      }
    }

    lemma WalkedSkip(m0: Memory, m: Memory, t: Table, level: nat, key: nat, i: nat)
      requires level <= 2 && HasAt(t, level, key) && Walked(m0, m, t, level, key, i)
      requires Part(t, level, key, i + 1) == Part(t, level, key, i)
      ensures Walked(m0, m, t, level, key, i + 1)
    {
    }

    /** The pages below entry i are gone and the entry is about to be cleared. */
    lemma WalkedChild(m0: Memory, m1: Memory, m2: Memory, t: Table, level: nat, key: nat, i: nat)
      requires 0 < level <= 2 && i < 512 && HasAt(t, level, key) && HasAt(t, level - 1, Key(key, i))
      requires Walked(m0, m1, t, level, key, i) && m2.Keys == m1.Keys
      requires PageAt(t, level, key) !in Sub(t, level - 1, Key(key, i))
      requires forall q :: q in m2 && q !in Sub(t, level - 1, Key(key, i)) ==> m2[q] == m1[q]
      requires Part(t, level, key, i + 1) == Part(t, level, key, i) + Sub(t, level - 1, Key(key, i))
      ensures var p := PageAt(t, level, key);
              p in m2 && |m2[p]| == 512 && Walked(m0, Poke(m2, p, i, 0), t, level, key, i + 1)
    {
      hide HasAt, PageAt, Sub, Part, Key;
    }

    /** uvmfree; false when freewalk panics. */
    method Uvmfree(pagetable: nat, sz: nat, ghost t: Table) returns (ok: bool)
      requires Sound(t) && Typed(t) && pagetable == t.root && sz <= USERV * PGSIZE
      modifies this
      ensures ok <==> forall v :: v in t.leaf ==> v < Up(sz)
      ensures ok ==> FreeOk() && Elems(free) == Elems(old(free)) + TablePages(t) + UserPages(t)
      ensures ok ==> mem.Keys == old(mem).Keys
      ensures ok ==> |free| == |old(free)| + |TablePages(t)| + |UserPages(t)|
      ensures ok ==> forall p :: p in mem && p !in All(t, old(free)) ==> mem[p] == old(mem)[p]
    {
      hide Holds, Chain, TablePages, UserPages, UserInjective, Moved;
      ghost var t1 := t;
      MovedRefl(mem, free, t);
      RemovesNone(t.leaf);
      if sz > 0 {
        ok, t1 := Uvmunmap(pagetable, 0, Up(sz), true, t);
      }
      assert RemovesRange(t.leaf, t1.leaf, 0, Up(sz));
      SameTables(t, t1);
      LeavesGone(t, t1, Up(sz));
      RootSub(t1);
      ghost var (m1, f1) := (mem, free);
      ok := Freewalk(pagetable, mem, t1, 2, 0);
      if ok {
        AllReturned(old(mem), old(free), t, m1, f1, t1, free);
        Moved3(old(mem), old(free), t, m1, f1, t1);
      }
    }

    /** uvmcreate: an empty page table, or 0. */
    method Uvmcreate() returns (pa: nat)
      requires FreeOk()
      modifies this
      ensures FreeOk() && (pa == 0 <==> old(free) == [])
      ensures pa == 0 ==> mem == old(mem) && free == old(free)
      ensures pa != 0 ==> && Sound(Table(pa, map[], map[], map[])) && free == old(free)[1..] && pa == old(free)[0]
                          && mem == old(mem)[pa := ZeroPage()]
    {
      pa := Kalloc();
      if pa == 0 { return; }
      ghost var m1 := mem;
      mem := mem[pa := ZeroPage()];
      assert pa !in Elems(free);
      ChainFrame(m1, mem, freelist, free);
      ghost var none: map<nat, nat> := map[];
      assert none.Values == {};
    }

    /** freerange: the whole pages of a range go to the free list. */
    method Freerange(start: nat, end: nat)
      requires FreeOk() && 0 < lo <= start && end <= hi
      requires forall p: nat :: InRange(start, end, p) ==> IsPage(mem, p) && p !in free
      modifies this
      ensures FreeOk() && mem.Keys == old(mem).Keys
      ensures forall p: nat :: p in free <==> p in old(free) || InRange(start, end, p)
      ensures forall p: nat :: p in mem && !InRange(start, end, p) ==> mem[p] == old(mem)[p]
    {
      hide Chain, Distinct, InRange, FreeOk;
      var p := Up(start) * PGSIZE;
      RangeStart(start, end);
      while p + PGSIZE <= end
        invariant p % PGSIZE == 0 && start <= p && FreeOk() && mem.Keys == old(mem).Keys
        invariant forall q: nat :: q in free <==> q in old(free) || (InRange(start, end, q) && q < p)
        invariant forall q: nat :: InRange(start, end, q) ==> IsPage(mem, q)
        invariant forall q: nat :: q in mem && !InRange(start, end, q) ==> mem[q] == old(mem)[q]
      {
        RangeNext(start, end, p);
        ghost var m0 := mem;
        var ok := Kfree(p);
        p := p + PGSIZE;
      }
      RangeEnd(start, end, p);
    }
  }
}
