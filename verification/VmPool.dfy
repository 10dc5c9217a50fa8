/** All processes together: free pages and the pages of their tables cover the pool, through
    every run of operations on page tables. */
module VmPool {
  import opened Common
  import opened VmTable
  import opened VmPages
  import opened VmTree
  import opened VmCost
  import opened VmMem

  /** The pool is exactly the free pages and the pages of the processes, and nobody shares. */
  ghost predicate Covers(pool: set<nat>, free: seq<nat>, ts: seq<Table>) {
    && (forall p :: p in pool <==> p in Elems(free) || exists i :: 0 <= i < |ts| && p in Mine(ts[i]))
    && (forall i :: 0 <= i < |ts| ==> Mine(ts[i]) !! Elems(free))
    && (forall i, j :: 0 <= i < j < |ts| ==> Mine(ts[i]) !! Mine(ts[j]))
  }

  /** Whatever an operation does to one process's table, no page is lost, gained or shared. */
  lemma PoolConserved(pool: set<nat>, m0: Memory, f0: seq<nat>, ts: seq<Table>, k: nat, m1: Memory, f1: seq<nat>,
                      t: Table)
    requires Covers(pool, f0, ts) && k < |ts| && Moved(m0, f0, ts[k], m1, f1, t) && Mine(t) !! Elems(f1)
    ensures Covers(pool, f1, ts[k := t])
    ensures forall i :: 0 <= i < |ts| && i != k && (forall p <- Mine(ts[i]) :: p in m0) ==>
              SamePages(m0, m1, Mine(ts[i]))
  {
    hide UserPages, TablePages;
    var us := ts[k := t];
    assert Mine(t) + Elems(f1) == Mine(ts[k]) + Elems(f0);
    forall i | 0 <= i < |ts| && i != k ensures Mine(ts[i]) !! All(ts[k], f0) {
      assert if i < k then Mine(ts[i]) !! Mine(ts[k]) else Mine(ts[k]) !! Mine(ts[i]);
    }
    forall p | p in pool ensures p in Elems(f1) || exists i :: 0 <= i < |us| && p in Mine(us[i]) {
      if p !in Elems(f1) && p !in Mine(t) {
        var i :| 0 <= i < |ts| && p in Mine(ts[i]);
        assert us[i] == ts[i];
      } else if p in Mine(t) {
        assert p in Mine(us[k]);
      }
    }
    forall p, i | 0 <= i < |us| && p in Mine(us[i]) ensures p in pool {
      assert i != k ==> us[i] == ts[i];
    }
    assert forall p :: p in Elems(f1) ==> p in Mine(ts[k]) + Elems(f0);
  }

  /** uvmcreate takes one free page for a new table. */
  lemma CreateCovers(pool: set<nat>, m0: Memory, f0: seq<nat>, ts: seq<Table>, m1: Memory, f1: seq<nat>, t: Table)
    requires Covers(pool, f0, ts) && f0 != [] && Distinct(f0) && f1 == f0[1..]
    requires Mine(t) == {f0[0]} && f0[0] in m0 && f0[0] in m1 && m1 == m0[f0[0] := m1[f0[0]]]
    ensures Covers(pool, f1, ts + [t])
    ensures forall i :: 0 <= i < |ts| && (forall p <- Mine(ts[i]) :: p in m0) ==> SamePages(m0, m1, Mine(ts[i]))
  {
    hide Mine;
    var us := ts + [t];
    assert Elems(f0) == Elems(f1) + {f0[0]} && f0[0] !in Elems(f1);
    assert us[|ts|] == t && forall i :: 0 <= i < |ts| ==> us[i] == ts[i];
    forall p | p in pool ensures p in Elems(f1) || exists i :: 0 <= i < |us| && p in Mine(us[i]) {
      if p == f0[0] {
        assert p in Mine(us[|ts|]);
      } else if p !in Elems(f1) {
        var i :| 0 <= i < |ts| && p in Mine(ts[i]);
        assert p in Mine(us[i]);
      }
    }
  }

  function Drop(ts: seq<Table>, k: nat): seq<Table>
    requires k < |ts|
  {
    ts[..k] + ts[k + 1..]
  }

  /** uvmfree gives back all pages of a table that then exists no longer. */
  lemma FreeCovers(pool: set<nat>, m0: Memory, f0: seq<nat>, ts: seq<Table>, k: nat, m1: Memory, f1: seq<nat>)
    requires Covers(pool, f0, ts) && k < |ts| && Elems(f1) == Elems(f0) + Mine(ts[k])
    requires m1.Keys == m0.Keys && forall p :: p in m0 && p !in Elems(f0) + Mine(ts[k]) ==> m1[p] == m0[p]
    ensures Covers(pool, f1, Drop(ts, k))
    ensures forall i :: 0 <= i < |ts| && i != k && (forall p <- Mine(ts[i]) :: p in m0) ==>
              SamePages(m0, m1, Mine(ts[i]))
  {
    hide Mine;
    var us := Drop(ts, k);
    forall i | 0 <= i < |ts| && i != k ensures Mine(ts[i]) !! Mine(ts[k]) {
      assert if i < k then Mine(ts[i]) !! Mine(ts[k]) else Mine(ts[k]) !! Mine(ts[i]);
    }
    assert forall i :: 0 <= i < |us| ==> us[i] == ts[if i < k then i else i + 1];
    forall p | p in pool ensures p in Elems(f1) || exists i :: 0 <= i < |us| && p in Mine(us[i]) {
      if p !in Elems(f1) {
        var i :| 0 <= i < |ts| && p in Mine(ts[i]);
        assert p in Mine(us[if i < k then i else i - 1]);
      }
    }
  }

  // ----- runs

  /** Memory, free list and the page tables of the processes. */
  datatype State = State(m: Memory, free: seq<nat>, ts: seq<Table>)

  datatype Step = Create(t: Table) | Work(k: nat, t: Table) | Free(k: nat)

  /** What uvmcreate, the operations on one table and uvmfree promise. */
  ghost predicate Takes(a: State, e: Step, b: State) {
    match e
    case Create(t) =>
      && a.free != [] && Distinct(a.free) && b.free == a.free[1..] && b.ts == a.ts + [t]
      && Mine(t) == {a.free[0]} && a.free[0] in a.m && a.free[0] in b.m && b.m == a.m[a.free[0] := b.m[a.free[0]]]
    case Work(k, t) =>
      && k < |a.ts| && b.ts == a.ts[k := t]
      && Moved(a.m, a.free, a.ts[k], b.m, b.free, t) && Mine(t) !! Elems(b.free)
    case Free(k) =>
      && k < |a.ts| && b.ts == Drop(a.ts, k)
      && Elems(b.free) == Elems(a.free) + Mine(a.ts[k]) && b.m.Keys == a.m.Keys
      && forall p :: p in a.m && p !in Elems(a.free) + Mine(a.ts[k]) ==> b.m[p] == a.m[p]
  }

  /** Through every run of creating, changing and freeing page tables, free pages and the
      processes' pages cover the pool and share nothing. */
  lemma {:induction false} RunCovers(pool: set<nat>, states: seq<State>, es: seq<Step>)
    requires |states| == |es| + 1 && Covers(pool, states[0].free, states[0].ts)
    requires forall i :: 0 <= i < |es| ==> Takes(states[i], es[i], states[i + 1])
    ensures Covers(pool, states[|es|].free, states[|es|].ts)
  {
    if es != [] {
      var n := |es| - 1;
      RunCovers(pool, states[..n + 1], es[..n]);
      var (a, b) := (states[n], states[n + 1]);
      assert Takes(a, es[n], b);
      match es[n]
      case Create(t) => CreateCovers(pool, a.m, a.free, a.ts, b.m, b.free, t);
      case Work(k, t) => PoolConserved(pool, a.m, a.free, a.ts, k, b.m, b.free, t);
      case Free(k) => FreeCovers(pool, a.m, a.free, a.ts, k, b.m, b.free);
    }
  }

  // ----- the operations themselves

  /** All page tables of the machine are sound, and with the free pages they cover the pool. */
  ghost predicate System(m: Machine, pool: set<nat>, ts: seq<Table>)
    reads m
  {
    m.FreeOk() && Covers(pool, m.free, ts) && forall i :: 0 <= i < |ts| ==> m.Sound(ts[i])
  }

  ghost predicate AllWhole(m: Machine, m0: Memory, ts: seq<Table>) {
    forall i :: 0 <= i < |ts| ==> m.Whole(m0, ts[i])
  }

  lemma SystemWhole(m: Machine, pool: set<nat>, ts: seq<Table>)
    requires System(m, pool, ts)
    ensures AllWhole(m, m.mem, ts)
    ensures forall i :: 0 <= i < |ts| ==> forall p <- Mine(ts[i]) :: p in m.mem
  {
    forall i | 0 <= i < |ts| ensures m.Whole(m.mem, ts[i]) && forall p <- Mine(ts[i]) :: p in m.mem {
      m.SoundWhole(ts[i]);
      m.MineIn(m.mem, ts[i]);
    }
  }

  /** A table whose pages did not change and are not free is still sound. */
  lemma SoundAfter(m: Machine, m0: Memory, o: Table)
    requires m.FreeOk() && m.Whole(m0, o) && SamePages(m0, m.mem, Mine(o)) && Mine(o) !! Elems(m.free)
    ensures m.Sound(o)
  {
    hide Holds, Chain, Distinct, TablePages, UserPages, UserInjective;
    Frame(m0, m.mem, o);
  }

  /** After a step that left the tables us alone, they are all still sound. */
  lemma AllSoundAfter(m: Machine, m0: Memory, us: seq<Table>)
    requires m.FreeOk() && AllWhole(m, m0, us)
    requires forall i :: 0 <= i < |us| ==> SamePages(m0, m.mem, Mine(us[i])) && Mine(us[i]) !! Elems(m.free)
    ensures forall i :: 0 <= i < |us| ==> m.Sound(us[i])
  {
    forall i | 0 <= i < |us| ensures m.Sound(us[i]) { SoundAfter(m, m0, us[i]); }
  }

  lemma EmptyMine(pa: nat)
    ensures Mine(Table(pa, map[], map[], map[])) == {pa}
  {
    ghost var none: map<nat, nat> := map[];
    assert none.Values == {};
  }

  /** uvmcreate as a step of the whole machine. */
  method CreateTable(m: Machine, ghost pool: set<nat>, ghost ts: seq<Table>) returns (pa: nat, ghost ts': seq<Table>)
    requires System(m, pool, ts)
    modifies m
    ensures System(m, pool, ts') && (pa == 0 <==> old(m.free) == [])
    ensures ts' == if pa == 0 then ts else ts + [Table(pa, map[], map[], map[])]
    ensures forall i :: 0 <= i < |ts| ==> SamePages(old(m.mem), m.mem, Mine(ts[i]))
  {
    SystemWhole(m, pool, ts);
    assert Distinct(m.free) && forall p <- m.free :: p in m.mem;
    pa := m.Uvmcreate();
    ts' := ts;
    hide m.FreeOk, m.Whole, Mine, TablePages, Holds, Chain, UserPages, UserInjective, Distinct;
    if pa != 0 {
      ghost var t := Table(pa, map[], map[], map[]);
      EmptyMine(pa);
      CreateCovers(pool, old(m.mem), old(m.free), ts, m.mem, m.free, t);
      AllSoundAfter(m, old(m.mem), ts);
      ts' := ts + [t];
    }
  }

  lemma FreedCovers(m: Machine, m0: Memory, f0: seq<nat>, pool: set<nat>, ts: seq<Table>, k: nat)
    requires Covers(pool, f0, ts) && k < |ts| && Elems(m.free) == Elems(f0) + Mine(ts[k])
    requires m.mem.Keys == m0.Keys && forall p :: p in m0 && p !in Elems(f0) + Mine(ts[k]) ==> m.mem[p] == m0[p]
    requires m.FreeOk() && AllWhole(m, m0, ts) && forall i :: 0 <= i < |ts| ==> forall p <- Mine(ts[i]) :: p in m0
    ensures System(m, pool, Drop(ts, k))
    ensures forall i :: 0 <= i < |ts| && i != k ==> SamePages(m0, m.mem, Mine(ts[i]))
  {
    hide m.FreeOk, m.Whole, m.Sound, Mine;
    FreeCovers(pool, m0, f0, ts, k, m.mem, m.free);
    var us := Drop(ts, k);
    forall i | 0 <= i < |us| ensures m.Sound(us[i]) {
      assert us[i] == ts[if i < k then i else i + 1];
      SoundAfter(m, m0, us[i]);
    }
  }

  /** uvmfree as a step of the whole machine. */
  method FreeTable(m: Machine, root: nat, sz: nat, ghost pool: set<nat>, ghost ts: seq<Table>, ghost k: nat)
    returns (ok: bool)
    requires System(m, pool, ts) && k < |ts| && root == ts[k].root && Typed(ts[k]) && sz <= USERV * PGSIZE
    modifies m
    ensures ok <==> forall v :: v in ts[k].leaf ==> v < Up(sz)
    ensures ok ==> System(m, pool, Drop(ts, k))
    ensures ok ==> forall i :: 0 <= i < |ts| && i != k ==> SamePages(old(m.mem), m.mem, Mine(ts[i]))
  {
    hide m.FreeOk, m.Whole, TablePages, UserPages, Covers, Elems;
    SystemWhole(m, pool, ts);
    ok := m.Uvmfree(root, sz, ts[k]);
    if ok {
      FreedCovers(m, old(m.mem), old(m.free), pool, ts, k);
    }
  }

  lemma OthersApart(pool: set<nat>, free: seq<nat>, ts: seq<Table>, j: nat, k: nat)
    requires Covers(pool, free, ts) && j < |ts| && k < |ts| && j != k
    ensures Mine(ts[j]) !! All(ts[k], free)
  {
    assert if j < k then Mine(ts[j]) !! Mine(ts[k]) else Mine(ts[k]) !! Mine(ts[j]);
  }

  /** After work on table k all tables are sound and cover the pool with the free pages. */
  lemma WorkedCovers(m: Machine, m0: Memory, f0: seq<nat>, pool: set<nat>, ts: seq<Table>, k: nat, t: Table)
    requires Covers(pool, f0, ts) && k < |ts| && Moved(m0, f0, ts[k], m.mem, m.free, t) && m.Sound(t)
    requires AllWhole(m, m0, ts) && forall i :: 0 <= i < |ts| ==> forall p <- Mine(ts[i]) :: p in m0
    ensures System(m, pool, ts[k := t])
    ensures forall i :: 0 <= i < |ts| && i != k ==> SamePages(m0, m.mem, Mine(ts[i]))
  {
    assert m.FreeOk() && Mine(t) !! Elems(m.free);
    hide m.FreeOk, m.Whole, m.Sound, Mine, Moved;
    PoolConserved(pool, m0, f0, ts, k, m.mem, m.free, t);
    var us := ts[k := t];
    forall i | 0 <= i < |us| ensures m.Sound(us[i]) {
      if i != k {
        assert us[i] == ts[i];
        SoundAfter(m, m0, us[i]);
      }
    }
  }

  /** uvmcopy as a step of the whole machine: only the child's table changes. */
  method CopyTable(m: Machine, parent: nat, child: nat, sz: nat,
                   ghost pool: set<nat>, ghost ts: seq<Table>, ghost j: nat, ghost k: nat)
    returns (r: MapResult, ghost n: nat, ghost ts': seq<Table>)
    requires System(m, pool, ts) && j < |ts| && k < |ts| && j != k && sz <= USERV * PGSIZE
    requires parent == ts[j].root && child == ts[k].root
    modifies m
    ensures r == Panicked ==> exists w: nat :: w < Up(sz) && w in ts[j].leaf && w in ts[k].leaf
    ensures r == NoMemory ==> n < Up(sz) && |old(m.free)| < Need(ts[k], Below(ts[j].leaf, n + 1))
    ensures r == NoMemory ==> |old(m.free)| < Need(ts[k], Below(ts[j].leaf, Up(sz)))
    ensures r == Mapped ==> |m.free| == |old(m.free)| - Need(ts[k], Below(ts[j].leaf, Up(sz)))
    ensures r != Panicked ==> System(m, pool, ts') && |ts'| == |ts| && ts' == ts[k := ts'[k]]
    ensures r != Panicked ==> forall i :: 0 <= i < |ts| && i != k ==> SamePages(old(m.mem), m.mem, Mine(ts[i]))
    ensures r == Mapped ==> Holding(ts[k].leaf, ts'[k].leaf, m.mem, Copied(old(m.mem), ts[j].leaf, Up(sz)))
  {
    hide m.FreeOk, m.Whole, m.Sound, TablePages, UserPages, Moved, Holding, Copied, Covers, Elems, All;
    hide Need, Below;
    SystemWhole(m, pool, ts);
    OthersApart(pool, m.free, ts, j, k);
    ghost var t;
    r, n, t := m.Uvmcopy(parent, child, sz, ts[j], ts[k]);
    ts' := ts[k := t];
    if r != Panicked { WorkedCovers(m, old(m.mem), old(m.free), pool, ts, k, t); }
  }

  /** uvmalloc as a step of the whole machine. */
  method GrowTable(m: Machine, root: nat, oldsz: nat, newsz: nat, xperm: nat,
                   ghost pool: set<nat>, ghost ts: seq<Table>, ghost k: nat)
    returns (r: SizeResult, ghost ts': seq<Table>)
    requires System(m, pool, ts) && k < |ts| && root == ts[k].root
    requires newsz <= USERV * PGSIZE && xperm in {0, 4, 8, 12}
    modifies m
    ensures r.Stopped? ==> exists w: nat :: Up(oldsz) <= w < Up(newsz) && w in ts[k].leaf
    ensures !r.Stopped? ==> System(m, pool, ts') && |ts'| == |ts| && ts' == ts[k := ts'[k]]
    ensures !r.Stopped? ==> forall i :: 0 <= i < |ts| && i != k ==> SamePages(old(m.mem), m.mem, Mine(ts[i]))
    ensures r.Failed? ==> |old(m.free)| < Need(ts[k], Interval(Up(oldsz), Up(newsz))) && ts'[k].leaf == ts[k].leaf
    ensures r.Size? && newsz >= oldsz ==>
              && |m.free| == |old(m.free)| - Need(ts[k], Interval(Up(oldsz), Up(newsz)))
              && Holding(ts[k].leaf, ts'[k].leaf, m.mem, Zeroed(Up(oldsz), Up(newsz), 19 + xperm))
  {
    hide m.FreeOk, m.Whole, m.Sound, TablePages, UserPages, Moved, Holding, Zeroed, Covers, Elems, All;
    hide Need, Interval;
    SystemWhole(m, pool, ts);
    ghost var t;
    r, t := m.Uvmalloc(root, oldsz, newsz, xperm, ts[k]);
    ts' := ts[k := t];
    if !r.Stopped? { WorkedCovers(m, old(m.mem), old(m.free), pool, ts, k, t); }
  }

  /** uvmdealloc as a step of the whole machine. */
  method ShrinkTable(m: Machine, root: nat, oldsz: nat, newsz: nat,
                     ghost pool: set<nat>, ghost ts: seq<Table>, ghost k: nat)
    returns (r: nat, ghost ts': seq<Table>)
    requires System(m, pool, ts) && k < |ts| && root == ts[k].root && oldsz <= USERV * PGSIZE
    modifies m
    ensures System(m, pool, ts') && |ts'| == |ts| && ts' == ts[k := ts'[k]]
    ensures forall i :: 0 <= i < |ts| && i != k ==> SamePages(old(m.mem), m.mem, Mine(ts[i]))
    ensures forall w: nat ::
              Lookup(ts'[k].leaf, w) == if Up(newsz) <= w < Up(oldsz) then None else Lookup(ts[k].leaf, w)
  {
    hide m.FreeOk, m.Whole, m.Sound, TablePages, UserPages, Moved, Covers, Elems, All;
    SystemWhole(m, pool, ts);
    ghost var t;
    r, t := m.Uvmdealloc(root, oldsz, newsz, ts[k]);
    ts' := ts[k := t];
    WorkedCovers(m, old(m.mem), old(m.free), pool, ts, k, t);
  }

  /** uvmunmap with its pages freed, as a step of the whole machine. */
  method UnmapTable(m: Machine, root: nat, va: nat, npages: nat,
                    ghost pool: set<nat>, ghost ts: seq<Table>, ghost k: nat)
    returns (ok: bool, ghost ts': seq<Table>)
    requires System(m, pool, ts) && k < |ts| && root == ts[k].root
    requires va + npages * PGSIZE < 0x1_0000_0000_0000_0000
    requires forall w :: w in ts[k].leaf && va / PGSIZE <= w < va / PGSIZE + npages ==> w < USERV
    modifies m
    ensures ok <==> va % PGSIZE == 0 && (npages == 0 || va + npages * PGSIZE <= MAXVA)
    ensures ok ==> System(m, pool, ts') && |ts'| == |ts| && ts' == ts[k := ts'[k]]
    ensures ok ==> forall i :: 0 <= i < |ts| && i != k ==> SamePages(old(m.mem), m.mem, Mine(ts[i]))
    ensures ok ==> RemovesRange(ts[k].leaf, ts'[k].leaf, va / PGSIZE, npages)
  {
    hide m.FreeOk, m.Whole, m.Sound, TablePages, UserPages, Moved, Covers, Elems, All, RemovesRange;
    SystemWhole(m, pool, ts);
    ghost var t;
    ok, t := m.Uvmunmap(root, va, npages, true, ts[k]);
    ts' := ts[k := t];
    if ok { WorkedCovers(m, old(m.mem), old(m.free), pool, ts, k, t); }
  }

  /** kinit: every whole page of the range is free, and there is no table yet. */
  method Boot(lo: nat, hi: nat, mem: Memory) returns (m: Machine, ghost pool: set<nat>)
    requires 0 < lo && forall p: nat :: InRange(lo, hi, p) ==> IsPage(mem, p)
    ensures fresh(m) && System(m, pool, []) && forall p: nat :: p in pool <==> InRange(lo, hi, p)
  {
    m := new Machine(lo, hi, mem);
    m.Freerange(lo, hi);
    pool := Elems(m.free);
  }
}
