/** Sv39 page tables in physical memory, and the flat map they stand for.

    Memory is a map from page address to 512 words.  A `Table` value names the table pages:
    `mid` by level-2 index, `low` by the upper 18 bits of the virtual page number; `leaf` is
    the flat map from virtual page number to physical page and flags. */
module VmTable {
  import opened Common

  const MAXVA := 0x40_0000_0000  // 1 << 38
  const VPNS := 0x400_0000       // MAXVA / PGSIZE

  // ----- page-table entries

  /** PA2PTE(pa) | flags, for a page-aligned pa and ten flag bits. */
  function Pte(pa: nat, flags: nat): nat { pa / PGSIZE * 1024 + flags }

  function PtePa(pte: nat): nat { pte / 1024 * PGSIZE }

  function PteFlags(pte: nat): nat { pte % 1024 }

  predicate V(flags: nat) { flags % 2 == 1 }
  predicate R(flags: nat) { flags / 2 % 2 == 1 }
  predicate W(flags: nat) { flags / 4 % 2 == 1 }
  predicate X(flags: nat) { flags / 8 % 2 == 1 }
  predicate U(flags: nat) { flags / 16 % 2 == 1 }

  /** The flag tests are for the bits PTE_V = 1, PTE_R = 2, PTE_W = 4, PTE_X = 8 and PTE_U = 16. */
  lemma FlagMeaning(x: nat)
    ensures V(x) <==> HasBit(x, 1)
    ensures R(x) <==> HasBit(x, 2)
    ensures W(x) <==> HasBit(x, 4)
    ensures X(x) <==> HasBit(x, 8)
    ensures U(x) <==> HasBit(x, 16)
  {
    BitTest(x, 1);
    BitTest(x, 2);
    BitTest(x, 4);
    BitTest(x, 8);
    BitTest(x, 16);
  }

  lemma BitTest(x: nat, b: nat)
    requires b > 0
    ensures x / b % 2 == 1 <==> HasBit(x, b)
  {
    var (q, lo) := (x / b, x % b);
    assert x == b * q + lo;
    if q % 2 == 1 {
      assert b * q == 2 * b * (q / 2) + b by { assert q == 2 * (q / 2) + 1; }
      assert BitForm(x, b, q / 2, lo);
    }
    if HasBit(x, b) {
      var hi: nat, l: nat :| BitForm(x, b, hi, l);
      assert x == b * (2 * hi + 1) + l;
      Quotient(x, b, 2 * hi + 1, l);
    }
  }

  lemma Quotient(x: nat, b: nat, q: nat, r: nat)
    requires r < b && x == b * q + r
    ensures x / b == q
  {
    var d := x / b;
    assert x == b * d + x % b;
    if d < q { Scaled(b, d, q); } else if d > q { Scaled(b, q, d); }
  }

  lemma Scaled(b: nat, x: nat, y: nat)
    requires x < y
    ensures b * x + b <= b * y
  {
    var k: nat := y - x - 1;
    Spread(b, x, k);
  }

  lemma Spread(b: nat, x: nat, k: nat)
    ensures b * (x + 1 + k) == b * x + b + b * k && b * k >= 0
  {
  }

  /** The page number above ten flag bits. */
  lemma PteFormat(pa: nat, flags: nat)
    requires pa % PGSIZE == 0
    ensures Pte(pa, flags) == pa / 4 + flags
  {
  }

  lemma PteParts(pa: nat, flags: nat)
    requires pa % PGSIZE == 0 && flags < 1024
    ensures PtePa(Pte(pa, flags)) == pa && PteFlags(Pte(pa, flags)) == flags
  {
  }

  /** Bit tests read the same on an entry and on its ten flag bits. */
  lemma FlagBits(pte: nat)
    ensures V(pte) == V(PteFlags(pte)) && U(pte) == U(PteFlags(pte))
    ensures R(pte) == R(PteFlags(pte)) && W(pte) == W(PteFlags(pte)) && X(pte) == X(PteFlags(pte))
  {
    var (a, b) := (pte / 1024, pte % 1024);
    assert pte == 1024 * a + b;
    hide PteFlags;
    assert PteFlags(pte) == b by { FlagsAre(pte); }
    Half(512 * a, b);
    Half(256 * a, b / 2);
    Half(128 * a, b / 2 / 2);
    Half(64 * a, b / 2 / 2 / 2);
    Half(32 * a, b / 2 / 2 / 2 / 2);
    Halvings(pte);
    Halvings(b);
  }

  lemma FlagsAre(pte: nat)
    ensures PteFlags(pte) == pte % 1024
  {
  }

  lemma Half(c: nat, b: nat)
    ensures (2 * c + b) / 2 == c + b / 2 && (2 * c + b) % 2 == b % 2
  {
  }

  lemma Halvings(x: nat)
    ensures x / 4 == x / 2 / 2 && x / 8 == x / 2 / 2 / 2 && x / 16 == x / 2 / 2 / 2 / 2
  {
  }

  /** PX(level, va): nine bits of the virtual address. */
  function Px(level: nat, va: nat): nat
    requires level <= 2
  {
    if level == 2 then va / 0x4000_0000 % 512 else if level == 1 then va / 0x20_0000 % 512 else va / 0x1000 % 512
  }

  /** The three indices of an address below MAXVA are the digits of its page number. */
  lemma PxDigits(va: nat)
    requires va < MAXVA
    ensures var v := va / PGSIZE;
            v < VPNS && Px(2, va) == v / 0x4_0000 && Px(1, va) == v / 512 % 512 && Px(0, va) == v % 512
  {
  }

  /** A page number is made of its three digits. */
  lemma Digits(v: nat)
    ensures v == v / 0x4_0000 * 0x4_0000 + v / 512 % 512 * 512 + v % 512
  {
  }

  lemma PxInjective(va: nat, wa: nat)
    requires va < MAXVA && wa < MAXVA
    requires Px(2, va) == Px(2, wa) && Px(1, va) == Px(1, wa) && Px(0, va) == Px(0, wa)
    ensures va / PGSIZE == wa / PGSIZE
  {
    hide Px;
    PxDigits(va);
    PxDigits(wa);
    Digits(va / PGSIZE);
    Digits(wa / PGSIZE);
  }

  // ----- tables

  datatype Leaf = Leaf(pa: nat, flags: nat)

  datatype Table = Table(root: nat, mid: map<nat, nat>, low: map<nat, nat>, leaf: map<nat, Leaf>)

  type Memory = map<nat, seq<nat>>

  predicate IsPage(m: Memory, p: nat) {
    p in m && p % PGSIZE == 0 && p != 0 && |m[p]| == 512
  }

  /** Table index k of the upper level, index i within the next. */
  function Key(k: nat, i: nat): nat { k * 512 + i }

  lemma KeyParts(k: nat, i: nat)
    requires i < 512
    ensures Key(k, i) / 512 == k && Key(k, i) % 512 == i
  {
  }

  function Link(t: map<nat, nat>, k: nat): nat {
    if k in t then Pte(t[k], 1) else 0
  }

  function LeafWord(t: map<nat, Leaf>, v: nat): nat {
    if v in t then Pte(t[v].pa, t[v].flags) else 0
  }

  predicate RootOk(m: Memory, t: Table) {
    IsPage(m, t.root) && forall i: nat :: i < 512 ==> m[t.root][i] == Link(t.mid, i)
  }

  predicate MidOk(m: Memory, t: Table, k: nat)
    requires k in t.mid
  {
    k < 512 && IsPage(m, t.mid[k]) && forall i: nat :: i < 512 ==> m[t.mid[k]][i] == Link(t.low, Key(k, i))
  }

  predicate LowOk(m: Memory, t: Table, k: nat)
    requires k in t.low
  {
    && k / 512 in t.mid && IsPage(m, t.low[k])
    && forall i: nat :: i < 512 ==> m[t.low[k]][i] == LeafWord(t.leaf, Key(k, i))
  }

  predicate LeafOk(t: Table, v: nat)
    requires v in t.leaf
  {
    v / 512 in t.low && t.leaf[v].pa % PGSIZE == 0 && t.leaf[v].flags < 1024 && V(t.leaf[v].flags)
  }

  predicate Injective(t: map<nat, nat>) {
    forall j, k :: j in t && k in t && j != k ==> t[j] != t[k]
  }

  function TablePages(t: Table): set<nat> {
    {t.root} + t.mid.Values + t.low.Values
  }

  /** The table pages are different pages. */
  predicate Apart(t: Table) {
    && Injective(t.mid) && Injective(t.low)
    && t.root !in t.mid.Values && t.root !in t.low.Values && t.mid.Values !! t.low.Values
  }

  /** Memory holds the table t. */
  predicate Holds(m: Memory, t: Table) {
    && RootOk(m, t) && Apart(t)
    && (forall k :: k in t.mid ==> MidOk(m, t, k))
    && (forall k :: k in t.low ==> LowOk(m, t, k))
    && (forall v :: v in t.leaf ==> LeafOk(t, v))
  }

  // ----- changes

  predicate SamePages(m: Memory, m': Memory, ps: set<nat>) {
    forall p <- ps :: p in m && p in m' && m'[p] == m[p]
  }

  lemma Frame(m: Memory, m': Memory, t: Table)
    requires Holds(m, t) && SamePages(m, m', TablePages(t))
    ensures Holds(m', t)
  {
    forall k | k in t.mid ensures MidOk(m', t, k) { assert MidOk(m, t, k) && t.mid[k] in TablePages(t); }
    forall k | k in t.low ensures LowOk(m', t, k) { assert LowOk(m, t, k) && t.low[k] in TablePages(t); }
  }

  function Poke(m: Memory, p: nat, i: nat, w: nat): Memory
    requires p in m && i < |m[p]|
  {
    var page: seq<nat> := m[p][i := w];
    m[p := page]
  }

  function ZeroPage(): (r: seq<nat>)
    ensures |r| == 512 && forall i :: 0 <= i < 512 ==> r[i] == 0
  {
    seq(512, _ => 0)
  }

  lemma NoLow(m: Memory, t: Table, k: nat, i: nat)
    requires Holds(m, t) && k !in t.mid && i < 512
    ensures Key(k, i) !in t.low
  {
  }

  lemma NoLeaf(m: Memory, t: Table, k: nat, i: nat)
    requires Holds(m, t) && k !in t.low && i < 512
    ensures Key(k, i) !in t.leaf
  {
    KeyParts(k, i);
  }

  /** A middle table whose page and entries are as before. */
  lemma SameMid(m: Memory, m': Memory, t: Table, t': Table, j: nat)
    requires j in t.mid && MidOk(m, t, j) && j in t'.mid && t'.mid[j] == t.mid[j] && t'.low == t.low
    requires t.mid[j] in m' && m'[t.mid[j]] == m[t.mid[j]]
    ensures MidOk(m', t', j)
  {
  }

  /** A low table whose page and entries are as before. */
  lemma SameLow(m: Memory, m': Memory, t: Table, t': Table, j: nat)
    requires j in t.low && LowOk(m, t, j) && j in t'.low && t'.low[j] == t.low[j] && t'.leaf == t.leaf
    requires j / 512 in t'.mid && t.low[j] in m' && m'[t.low[j]] == m[t.low[j]]
    ensures LowOk(m', t', j)
  {
  }

  lemma FreshMid(m: Memory, t: Table, k: nat)
    requires k in t.mid && k < 512 && IsPage(m, t.mid[k]) && m[t.mid[k]] == ZeroPage()
    requires forall i: nat :: i < 512 ==> Key(k, i) !in t.low
    ensures MidOk(m, t, k)
  {
  }

  lemma FreshLow(m: Memory, t: Table, k: nat)
    requires k in t.low && k / 512 in t.mid && IsPage(m, t.low[k]) && m[t.low[k]] == ZeroPage()
    requires forall i: nat :: i < 512 ==> Key(k, i) !in t.leaf
    ensures LowOk(m, t, k)
  {
  }

  lemma SameRoot(m: Memory, m': Memory, t: Table, t': Table)
    requires RootOk(m, t) && t'.root == t.root && t'.mid == t.mid && t.root in m' && m'[t.root] == m[t.root]
    ensures RootOk(m', t')
  {
  }

  lemma OtherWords(f: map<nat, Leaf>, g: map<nat, Leaf>, v: nat)
    requires g == f - {v} || (v in g && g == f[v := g[v]])
    ensures forall w :: w != v ==> LeafWord(g, w) == LeafWord(f, w)
  {
  }

  lemma RootAdd(m: Memory, t: Table, k: nat, q: nat)
    requires RootOk(m, t) && k < 512
    ensures RootOk(Poke(m, t.root, k, Pte(q, 1)), t.(mid := t.mid[k := q]))
  {
    hide Pte;
  }

  lemma InValues(f: map<nat, nat>, j: nat)
    requires j in f
    ensures f[j] in f.Values
  {
  }

  /** A zeroed page q becomes the middle table for level-2 index k. */
  lemma AddMid(m: Memory, t: Table, k: nat, q: nat)
    requires Holds(m, t) && k < 512 && k !in t.mid
    requires IsPage(m, q) && m[q] == ZeroPage() && q !in TablePages(t)
    ensures Holds(Poke(m, t.root, k, Pte(q, 1)), t.(mid := t.mid[k := q]))
    ensures TablePages(t.(mid := t.mid[k := q])) == TablePages(t) + {q}
  {
    RootAdd(m, t, k, q);
    forall i: nat | i < 512 ensures Key(k, i) !in t.low { NoLow(m, t, k, i); }
    forall j | j in t.mid ensures t.mid[j] in m { assert MidOk(m, t, j); }
    forall j | j in t.low ensures t.low[j] in m && j / 512 in t.mid { assert LowOk(m, t, j); }
    hide Key, Pte, MidOk, LowOk, RootOk;
    var (m', t') := (Poke(m, t.root, k, Pte(q, 1)), t.(mid := t.mid[k := q]));
    ValuesAdd(t.mid, k, q);
    forall j | j in t'.mid ensures MidOk(m', t', j) {
      if j == k {
        FreshMid(m', t', k);
      } else {
        InValues(t.mid, j);
        SameMid(m, m', t, t', j);
      }
    }
    forall j | j in t'.low ensures LowOk(m', t', j) {
      InValues(t.low, j);
      SameLow(m, m', t, t', j);
    }
    forall v | v in t'.leaf ensures LeafOk(t', v) { assert LeafOk(t, v); }
  }

  lemma ValuesAdd(f: map<nat, nat>, k: nat, q: nat)
    requires k !in f
    ensures f[k := q].Values == f.Values + {q}
    ensures Injective(f) && q !in f.Values ==> Injective(f[k := q])
  {
    var g := f[k := q];
    forall x | x in f.Values + {q} ensures x in g.Values {
      if x in f.Values {
        var j :| j in f && f[j] == x;
        assert g[j] == x;
      } else {
        assert g[k] == x;
      }
    }
    assert forall j :: j in f ==> f[j] in f.Values;
  }

  lemma AddLowMids(m: Memory, t: Table, k: nat, q: nat, j: nat)
    requires Holds(m, t) && k / 512 in t.mid && k !in t.low && j in t.mid
    ensures t.mid[k / 512] in m && |m[t.mid[k / 512]]| == 512
    ensures MidOk(Poke(m, t.mid[k / 512], k % 512, Pte(q, 1)), t.(low := t.low[k := q]), j)
  {
    hide Key, Pte, LowOk;
    var p := t.mid[k / 512];
    assert MidOk(m, t, k / 512) && MidOk(m, t, j);
    var (m', t') := (Poke(m, p, k % 512, Pte(q, 1)), t.(low := t.low[k := q]));
    forall i: nat | i < 512 ensures m'[t.mid[j]][i] == Link(t'.low, Key(j, i)) {
      KeyParts(j, i);
      KeyOf(k);
      if j != k / 512 { assert t.mid[j] != p; }
    }
  }

  lemma KeyOf(k: nat)
    ensures Key(k / 512, k % 512) == k
  {
  }

  /** A zeroed page q becomes the low table for the 18-bit index k. */
  lemma AddLow(m: Memory, t: Table, k: nat, q: nat)
    requires Holds(m, t) && k / 512 in t.mid && k !in t.low
    requires IsPage(m, q) && m[q] == ZeroPage() && q !in TablePages(t)
    ensures t.mid[k / 512] in m && |m[t.mid[k / 512]]| == 512
    ensures Holds(Poke(m, t.mid[k / 512], k % 512, Pte(q, 1)), t.(low := t.low[k := q]))
    ensures TablePages(t.(low := t.low[k := q])) == TablePages(t) + {q}
  {
    forall i: nat | i < 512 ensures Key(k, i) !in t.leaf { NoLeaf(m, t, k, i); }
    forall j | j in t.mid ensures IsPage(m, t.mid[j]) { assert MidOk(m, t, j); }
    forall j | j in t.low ensures t.low[j] in m && j / 512 in t.mid { assert LowOk(m, t, j); }
    var p := t.mid[k / 512];
    var (m', t') := (Poke(m, p, k % 512, Pte(q, 1)), t.(low := t.low[k := q]));
    assert RootOk(m, t) && t.root in m;
    hide Key, Pte, MidOk, LowOk, RootOk, ZeroPage;
    InValues(t.mid, k / 512);
    ValuesAdd(t.low, k, q);
    SameRoot(m, m', t, t');
    forall j | j in t'.mid ensures MidOk(m', t', j) { AddLowMids(m, t, k, q, j); }
    forall j | j in t'.low ensures LowOk(m', t', j) {
      if j == k {
        FreshLow(m', t', k);
      } else {
        InValues(t.low, j);
        SameLow(m, m', t, t', j);
      }
    }
    forall v | v in t'.leaf ensures LeafOk(t', v) { assert LeafOk(t, v); }
  }

  lemma SetLeafLows(m: Memory, t: Table, v: nat, leaf': map<nat, Leaf>, j: nat)
    requires Holds(m, t) && v / 512 in t.low && j in t.low
    requires forall w :: w != v ==> LeafWord(leaf', w) == LeafWord(t.leaf, w)
    ensures t.low[v / 512] in m && |m[t.low[v / 512]]| == 512
    ensures LowOk(Poke(m, t.low[v / 512], v % 512, LeafWord(leaf', v)), t.(leaf := leaf'), j)
  {
    hide Key, Pte, LeafWord;
    var p := t.low[v / 512];
    assert LowOk(m, t, v / 512) && LowOk(m, t, j) && p in t.low.Values;
    var (m', t') := (Poke(m, p, v % 512, LeafWord(leaf', v)), t.(leaf := leaf'));
    forall i: nat | i < 512 ensures m'[t.low[j]][i] == LeafWord(leaf', Key(j, i)) {
      KeyParts(j, i);
      KeyOf(v);
      if j != v / 512 { assert t.low[j] != p; }
    }
  }

  /** Writing one word of a low table sets or clears one entry of the flat map. */
  lemma SetLeaf(m: Memory, t: Table, v: nat, leaf': map<nat, Leaf>)
    requires Holds(m, t) && v / 512 in t.low
    requires leaf' == t.leaf - {v} || (v in leaf' && leaf' == t.leaf[v := leaf'[v]])
    requires v in leaf' ==> leaf'[v].pa % PGSIZE == 0 && leaf'[v].flags < 1024 && V(leaf'[v].flags)
    ensures t.low[v / 512] in m && |m[t.low[v / 512]]| == 512
    ensures Holds(Poke(m, t.low[v / 512], v % 512, LeafWord(leaf', v)), t.(leaf := leaf'))
  {
    forall j | j in t.mid ensures t.mid[j] in m { assert MidOk(m, t, j); }
    var p := t.low[v / 512];
    assert LowOk(m, t, v / 512) && IsPage(m, p) && RootOk(m, t) && t.root in m;
    var (m', t') := (Poke(m, p, v % 512, LeafWord(leaf', v)), t.(leaf := leaf'));
    OtherWords(t.leaf, leaf', v);
    hide Key, Pte, MidOk, LowOk, RootOk, LeafWord, V;
    InValues(t.low, v / 512);
    SameRoot(m, m', t, t');
    forall j | j in t'.mid ensures MidOk(m', t', j) {
      InValues(t.mid, j);
      SameMid(m, m', t, t', j);
    }
    forall j | j in t'.low ensures LowOk(m', t', j) { SetLeafLows(m, t, v, leaf', j); }
    forall w | w in leaf' ensures LeafOk(t', w) { if w != v { assert LeafOk(t, w); } }
  }

  /** Different virtual pages have different page-table slots. */
  lemma SlotInjective(m: Memory, t: Table, v: nat, w: nat)
    requires Holds(m, t) && v / 512 in t.low && w / 512 in t.low && v != w
    ensures t.low[v / 512] != t.low[w / 512] || v % 512 != w % 512
  {
  }
}
