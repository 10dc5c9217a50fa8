/** Which physical pages a page table and the free list hold between them. */
module VmPages {
  import opened Common
  import opened VmTable

  const USERV := 0x3FF_FFFE  // TRAPFRAME / PGSIZE: pages below it belong to the process

  // ----- the flat map, entry by entry

  function Lookup(f: map<nat, Leaf>, v: nat): Option<Leaf> {
    if v in f then Some(f[v]) else None
  }

  /** g is f with n pages from v mapped to consecutive physical pages from pa. */
  ghost predicate AddsRange(f: map<nat, Leaf>, g: map<nat, Leaf>, v: nat, n: nat, pa: nat, flags: nat) {
    forall w: nat :: Lookup(g, w) == if v <= w < v + n then Some(Leaf(pa + (w - v) * PGSIZE, flags)) else Lookup(f, w)
  }

  /** g is f without the n pages from v. */
  ghost predicate RemovesRange(f: map<nat, Leaf>, g: map<nat, Leaf>, v: nat, n: nat) {
    forall w: nat :: Lookup(g, w) == if v <= w < v + n then None else Lookup(f, w)
  }

  lemma SameMap(f: map<nat, Leaf>, g: map<nat, Leaf>)
    requires forall w: nat :: Lookup(g, w) == Lookup(f, w)
    ensures f == g
  {
    forall w: nat ensures w in f <==> w in g { assert Lookup(g, w) == Lookup(f, w); }
    forall w | w in f ensures f[w] == g[w] { assert Lookup(g, w) == Lookup(f, w); }
  }

  lemma AddsOne(f: map<nat, Leaf>, g: map<nat, Leaf>, v: nat, n: nat, pa: nat, flags: nat)
    requires AddsRange(f, g, v, n, pa, flags)
    ensures AddsRange(f, g[v + n := Leaf(pa + n * PGSIZE, flags)], v, n + 1, pa, flags)
  {
    var h := g[v + n := Leaf(pa + n * PGSIZE, flags)];
    forall w: nat
      ensures Lookup(h, w) ==
              if v <= w < v + (n + 1) then Some(Leaf(pa + (w - v) * PGSIZE, flags)) else Lookup(f, w)
    {
      assert w != v + n ==> Lookup(h, w) == Lookup(g, w);
    }
  }

  lemma RemovesOne(f: map<nat, Leaf>, g: map<nat, Leaf>, v: nat, n: nat)
    requires RemovesRange(f, g, v, n)
    ensures RemovesRange(f, g - {v + n}, v, n + 1)
  {
    var h := g - {v + n};
    forall w: nat ensures Lookup(h, w) == if v <= w < v + (n + 1) then None else Lookup(f, w) {
      assert w != v + n ==> Lookup(h, w) == Lookup(g, w);
    }
  }

  // ----- pages owned by the process

  function UserPages(t: Table): set<nat> {
    set v | v in t.leaf && v < USERV :: t.leaf[v].pa
  }

  predicate UserInjective(t: Table) {
    forall v, w :: v in t.leaf && w in t.leaf && v < USERV && w < USERV && v != w ==> t.leaf[v].pa != t.leaf[w].pa
  }

  lemma UserAdd(t: Table, v: nat, l: Leaf)
    requires UserInjective(t) && v !in t.leaf && v < USERV && l.pa !in UserPages(t)
    ensures var t' := t.(leaf := t.leaf[v := l]); UserPages(t') == UserPages(t) + {l.pa} && UserInjective(t')
  {
    var t' := t.(leaf := t.leaf[v := l]);
    forall p | p in UserPages(t) + {l.pa} ensures p in UserPages(t') {
      if p in UserPages(t) {
        var w :| w in t.leaf && w < USERV && t.leaf[w].pa == p;
        assert t'.leaf[w].pa == p;
      } else {
        assert t'.leaf[v].pa == p;
      }
    }
    assert forall w :: w in t.leaf && w < USERV ==> t.leaf[w].pa in UserPages(t);
  }

  lemma UserRemove(t: Table, v: nat)
    requires UserInjective(t) && v in t.leaf
    ensures var t' := t.(leaf := t.leaf - {v});
            UserInjective(t') && UserPages(t') == if v < USERV then UserPages(t) - {t.leaf[v].pa} else UserPages(t)
  {
    var t' := t.(leaf := t.leaf - {v});
    forall p | p in UserPages(t) && (v < USERV ==> p != t.leaf[v].pa) ensures p in UserPages(t') {
      var w :| w in t.leaf && w < USERV && t.leaf[w].pa == p;
      assert t'.leaf[w].pa == p;
    }
  }

  lemma UserSame(t: Table, t': Table)
    requires t'.leaf == t.leaf
    ensures UserPages(t') == UserPages(t) && (UserInjective(t) ==> UserInjective(t'))
  {
  }

  /** The pages in the hands of the allocator or used as tables. */
  function Busy(t: Table, free: seq<nat>): set<nat> {
    TablePages(t) + Elems(free)
  }

  function All(t: Table, free: seq<nat>): set<nat> {
    Busy(t, free) + UserPages(t)
  }

  /** Pages only moved between table, free list and process; a page that the process kept
      throughout, or that none of the three held, has not changed. */
  predicate Moved(m0: Memory, f0: seq<nat>, t0: Table, m1: Memory, f1: seq<nat>, t1: Table) {
    && m1.Keys == m0.Keys && All(t1, f1) == All(t0, f0)
    && forall p :: p in m0 && p !in Busy(t0, f0) && (p in UserPages(t0) ==> p in UserPages(t1)) ==> m1[p] == m0[p]
  }

  lemma MovedTrans(m0: Memory, f0: seq<nat>, t0: Table, m1: Memory, f1: seq<nat>, t1: Table, m2: Memory, f2: seq<nat>,
                   t2: Table)
    requires Moved(m0, f0, t0, m1, f1, t1) && Moved(m1, f1, t1, m2, f2, t2)
    requires UserPages(t0) * UserPages(t2) <= UserPages(t1) && UserPages(t1) !! Busy(t1, f1)
    ensures Moved(m0, f0, t0, m2, f2, t2)
  {
  }

  // ----- new pages and their contents

  /** Flags and contents that new pages are to have. */
  type Wanted = map<nat, (nat, seq<nat>)>

  predicate Has(g: map<nat, Leaf>, m: Memory, v: nat, flags: nat, content: seq<nat>) {
    v in g && g[v].flags == flags && g[v].pa in m && m[g[v].pa] == content
  }

  /** g is f with the wanted pages added, and memory holds their contents. */
  ghost predicate Holding(f: map<nat, Leaf>, g: map<nat, Leaf>, m: Memory, want: Wanted) {
    && (forall w: nat :: w !in want ==> Lookup(g, w) == Lookup(f, w))
    && (forall w: nat :: w in want ==> w !in f && Has(g, m, w, want[w].0, want[w].1))
  }

  lemma HoldingAdd(f: map<nat, Leaf>, t1: Table, m1: Memory, f1: seq<nat>, t2: Table, m2: Memory, f2: seq<nat>,
                   want: Wanted, v: nat)
    requires Holding(f, t1.leaf, m1, want) && v !in want && (forall w: nat :: w in want ==> w < USERV)
    requires Moved(m1, f1, t1, m2, f2, t2) && UserPages(t1) !! Busy(t1, f1) && UserPages(t1) <= UserPages(t2)
    requires v !in t1.leaf && v in t2.leaf && t2.leaf == t1.leaf[v := t2.leaf[v]] && t2.leaf[v].pa in m2
    ensures Holding(f, t2.leaf, m2, want[v := (t2.leaf[v].flags, m2[t2.leaf[v].pa])])
  {
    assert Lookup(t1.leaf, v) == Lookup(f, v);
    forall w: nat | w in want ensures Has(t2.leaf, m2, w, want[w].0, want[w].1) {
      assert Has(t1.leaf, m1, w, want[w].0, want[w].1) && t1.leaf[w].pa in UserPages(t1);
    }
    forall w: nat | w !in want && w != v ensures Lookup(t2.leaf, w) == Lookup(f, w) {
      assert Lookup(t1.leaf, w) == Lookup(f, w);
    }
  }

  lemma HoldingGrows(t: Table, t': Table, m: Memory, want: Wanted)
    requires Holding(t.leaf, t'.leaf, m, want)
    ensures UserPages(t) <= UserPages(t')
  {
  }

  /** Taking the wanted pages away again gives back f. */
  lemma HoldingUndone(f: map<nat, Leaf>, g: map<nat, Leaf>, m: Memory, want: Wanted, h: map<nat, Leaf>, lo: nat,
                      hi: nat)
    requires Holding(f, g, m, want) && (forall w: nat :: w in want ==> lo <= w < hi)
    requires forall w: nat :: lo <= w < hi && w in f ==> w in want
    requires forall w: nat :: Lookup(h, w) == if lo <= w < hi then None else Lookup(g, w)
    ensures h == f
  {
    forall w: nat ensures Lookup(h, w) == Lookup(f, w) {
      assert w !in want ==> Lookup(g, w) == Lookup(f, w);
    }
    SameMap(f, h);
  }

  /** With the user pages as before, free list and tables hold the same pages as before. */
  lemma BusySame(m0: Memory, f0: seq<nat>, t0: Table, m1: Memory, f1: seq<nat>, t1: Table)
    requires Moved(m0, f0, t0, m1, f1, t1) && UserPages(t1) == UserPages(t0)
    requires UserPages(t0) !! Busy(t0, f0) && UserPages(t1) !! Busy(t1, f1)
    ensures Busy(t1, f1) == Busy(t0, f0)
  {
  }
}
