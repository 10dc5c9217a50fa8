/** What mapping a set of virtual pages costs in free pages: the pages themselves and the tables
    that are missing on the way to them. */
module VmCost {
  import opened Common
  import opened VmTable

  function MidKeys(s: set<nat>): set<nat> { set w | w in s :: w / 0x4_0000 }

  function LowKeys(s: set<nat>): set<nat> { set w | w in s :: w / 512 }

  /** Tables missing on the way to page v. */
  function Missing(t: Table, v: nat): nat {
    (if v / 0x4_0000 in t.mid then 0 else 1) + (if v / 512 in t.low then 0 else 1)
  }

  /** Tables missing on the way to the pages of s. */
  function Tables(t: Table, s: set<nat>): nat {
    |MidKeys(s) - t.mid.Keys| + |LowKeys(s) - t.low.Keys|
  }

  /** Free pages it takes to map a new page at each place of s. */
  function Need(t: Table, s: set<nat>): nat { |s| + Tables(t, s) }

  /** t' has t's tables and those on the way to s. */
  predicate Tabled(t: Table, t': Table, s: set<nat>) {
    t'.mid.Keys == t.mid.Keys + MidKeys(s) && t'.low.Keys == t.low.Keys + LowKeys(s)
  }

  lemma KeysAdd(s: set<nat>, v: nat)
    ensures MidKeys(s + {v}) == MidKeys(s) + {v / 0x4_0000}
    ensures LowKeys(s + {v}) == LowKeys(s) + {v / 512}
  {
  }

  lemma TabledNone(t: Table)
    ensures Tabled(t, t, {}) && Tables(t, {}) == 0
  {
    assert MidKeys({}) == {} && LowKeys({}) == {};
    assert {} - t.mid.Keys == {} && {} - t.low.Keys == {};
  }

  lemma TabledAdd(t: Table, t1: Table, t2: Table, s: set<nat>, v: nat)
    requires Tabled(t, t1, s) && Tabled(t1, t2, {v})
    ensures Tabled(t, t2, s + {v})
  {
    KeysAdd(s, v);
    KeysAdd({}, v);
    assert {} + {v} == {v} && MidKeys({}) == {} && LowKeys({}) == {};
  }

  lemma OneMore(a: set<nat>, b: set<nat>, k: nat)
    ensures |a + {k} - b| == |a - b| + if k in a + b then 0 else 1
  {
    if k in a + b {
      assert a + {k} - b == a - b;
    } else {
      assert a + {k} - b == a - b + {k};
    }
  }

  /** One more page costs the tables that the ones before did not bring. */
  lemma TablesAdd(t: Table, t1: Table, s: set<nat>, v: nat)
    requires Tabled(t, t1, s)
    ensures Tables(t, s + {v}) == Tables(t, s) + Missing(t1, v)
  {
    KeysAdd(s, v);
    OneMore(MidKeys(s), t.mid.Keys, v / 0x4_0000);
    OneMore(LowKeys(s), t.low.Keys, v / 512);
  }

  lemma TablesOne(t: Table, v: nat)
    ensures Tables(t, {v}) == Missing(t, v)
  {
    hide Tables, Tabled, Missing;
    TabledNone(t);
    var none: set<nat> := {};
    TablesAdd(t, t, none, v);
    assert none + {v} == {v};
  }

  /** Of n0 free pages the tables on the way to s have left n. */
  predicate Paid(t: Table, t': Table, s: set<nat>, n0: nat, n: nat) {
    Tabled(t, t', s) && n0 == n + Tables(t, s)
  }

  lemma PaidNone(t: Table, n: nat)
    ensures Paid(t, t, {}, n, n)
  {
    TabledNone(t);
  }

  lemma PaidAdd(t: Table, t1: Table, t2: Table, s: set<nat>, v: nat, n0: nat, n1: nat, n2: nat)
    requires Paid(t, t1, s, n0, n1) && Tabled(t1, t2, {v}) && n1 == n2 + Missing(t1, v)
    ensures Paid(t, t2, s + {v}, n0, n2)
  {
    hide Tables, Tabled, Missing;
    TablesAdd(t, t1, s, v);
    TabledAdd(t, t1, t2, s, v);
  }

  /** What is left does not pay for the tables of one more page. */
  lemma PaidOut(t: Table, t1: Table, s: set<nat>, v: nat, n0: nat, n1: nat)
    requires Paid(t, t1, s, n0, n1) && n1 < Missing(t1, v)
    ensures n0 < Tables(t, s + {v})
  {
    hide Tables, Tabled, Missing;
    TablesAdd(t, t1, s, v);
  }

  /** Of n0 free pages, mapping a new page at each place of s has left n. */
  predicate Bought(t: Table, t': Table, s: set<nat>, n0: nat, n: nat) {
    Tabled(t, t', s) && n0 == n + Need(t, s)
  }

  /** One page and the tables on the way to it were paid for. */
  predicate PageBought(t: Table, t': Table, v: nat, n0: nat, n: nat) {
    n == n0 - 1 - Missing(t, v) && Tabled(t, t', {v})
  }

  lemma BoughtNone(t: Table, n: nat)
    ensures Bought(t, t, {}, n, n)
  {
    TabledNone(t);
  }

  lemma BoughtAdd(t: Table, t1: Table, t2: Table, s: set<nat>, v: nat, n0: nat, n1: nat, n2: nat)
    requires Bought(t, t1, s, n0, n1) && v !in s && Tabled(t1, t2, {v}) && n1 == n2 + 1 + Missing(t1, v)
    ensures Bought(t, t2, s + {v}, n0, n2)
  {
    hide Tables, Tabled, Missing;
    TablesAdd(t, t1, s, v);
    TabledAdd(t, t1, t2, s, v);
  }

  /** What is left does not pay for one more page. */
  lemma BoughtOut(t: Table, t1: Table, s: set<nat>, v: nat, n0: nat, n1: nat)
    requires Bought(t, t1, s, n0, n1) && v !in s && n1 < 1 + Missing(t1, v)
    ensures Need(t, s) <= n0 < Need(t, s + {v})
  {
    hide Tables, Tabled, Missing;
    TablesAdd(t, t1, s, v);
  }

  lemma NeedGrows(t: Table, a: set<nat>, b: set<nat>)
    requires a <= b
    ensures Tables(t, a) <= Tables(t, b) && Need(t, a) <= Need(t, b)
  {
    SubsetSize(a, b);
    SubsetSize(MidKeys(a) - t.mid.Keys, MidKeys(b) - t.mid.Keys);
    SubsetSize(LowKeys(a) - t.low.Keys, LowKeys(b) - t.low.Keys);
  }

  /** At most three pages for each page: itself and two tables. */
  lemma NeedBound(t: Table, s: set<nat>)
    ensures Need(t, s) <= 3 * |s|
  {
    KeysSize(s);
    SubsetSize(MidKeys(s) - t.mid.Keys, MidKeys(s));
    SubsetSize(LowKeys(s) - t.low.Keys, LowKeys(s));
  }

  lemma {:induction false} KeysSize(s: set<nat>)
    ensures |MidKeys(s)| <= |s| && |LowKeys(s)| <= |s|
    decreases |s|
  {
    if s != {} {
      var v :| v in s;
      var r := s - {v};
      KeysSize(r);
      KeysAdd(r, v);
      assert s == r + {v};
    } else {
      assert MidKeys(s) == {} && LowKeys(s) == {};
    }
  }

  // ----- ranges of pages, and the parent's pages

  lemma RangeBought(t: Table, t1: Table, t2: Table, lo: nat, v: nat, n0: nat, n1: nat, n2: nat)
    requires Bought(t, t1, Interval(lo, v), n0, n1) && lo <= v
    requires Tabled(t1, t2, {v}) && n2 == n1 - 1 - Missing(t1, v)
    ensures Bought(t, t2, Interval(lo, v + 1), n0, n2)
  {
    hide Bought, Tabled, Missing, Interval;
    IntervalAdd(lo, v);
    BoughtAdd(t, t1, t2, Interval(lo, v), v, n0, n1, n2);
  }

  lemma RangeOut(t: Table, t1: Table, lo: nat, v: nat, hi: nat, n0: nat, n1: nat)
    requires Bought(t, t1, Interval(lo, v), n0, n1) && lo <= v < hi && n1 < 1 + Missing(t1, v)
    ensures n0 < Need(t, Interval(lo, hi))
  {
    hide Bought, Need, Missing, Interval;
    IntervalAdd(lo, v);
    BoughtOut(t, t1, Interval(lo, v), v, n0, n1);
    NeedGrows(t, Interval(lo, v + 1), Interval(lo, hi));
  }

  lemma BoughtNeed(t: Table, t1: Table, s: set<nat>, n0: nat, n1: nat)
    requires Bought(t, t1, s, n0, n1)
    ensures n0 == n1 + Need(t, s)
  {
  }

  /** The pages of f below n. */
  function Below(f: map<nat, Leaf>, n: nat): set<nat> { set w | w in f && w < n }

  lemma BelowNext(f: map<nat, Leaf>, n: nat)
    ensures Below(f, n + 1) == if n in f then Below(f, n) + {n} else Below(f, n)
    ensures n !in Below(f, n) && Below(f, 0) == {}
  {
  }

  lemma BelowBought(t: Table, t1: Table, t2: Table, f: map<nat, Leaf>, v: nat, n0: nat, n1: nat, n2: nat)
    requires Bought(t, t1, Below(f, v), n0, n1)
    requires if v in f then Tabled(t1, t2, {v}) && n2 == n1 - 1 - Missing(t1, v) else t2 == t1 && n2 == n1
    ensures Bought(t, t2, Below(f, v + 1), n0, n2)
  {
    hide Bought, Tabled, Missing, Below;
    BelowNext(f, v);
    if v in f { BoughtAdd(t, t1, t2, Below(f, v), v, n0, n1, n2); }
  }

  lemma BelowOut(t: Table, t1: Table, f: map<nat, Leaf>, v: nat, hi: nat, n0: nat, n1: nat)
    requires Bought(t, t1, Below(f, v), n0, n1) && v in f && v < hi && n1 < 1 + Missing(t1, v)
    ensures Need(t, Below(f, v)) <= n0 < Need(t, Below(f, v + 1)) <= Need(t, Below(f, hi))
  {
    BelowNext(f, v);
    assert Below(f, v + 1) <= Below(f, hi);
    hide Bought, Need, Missing, Below;
    BoughtOut(t, t1, Below(f, v), v, n0, n1);
    NeedGrows(t, Below(f, v + 1), Below(f, hi));
  }
}
