/** The page table as a tree: what freewalk finds below a table page. */
module VmTree {
  import opened VmTable

  /** Table pages by level and key; the root has level 2 and key 0. */
  predicate HasAt(t: Table, level: nat, key: nat) {
    if level == 2 then key == 0 else if level == 1 then key in t.mid else level == 0 && key in t.low
  }

  function PageAt(t: Table, level: nat, key: nat): nat
    requires HasAt(t, level, key)
  {
    if level == 2 then t.root else if level == 1 then t.mid[key] else t.low[key]
  }

  /** The table pages at and below a table page. */
  function Sub(t: Table, level: nat, key: nat): set<nat>
    requires HasAt(t, level, key)
  {
    if level == 2 then TablePages(t)
    else if level == 1 then {t.mid[key]} + Lows(t, key, 512)
    else {t.low[key]}
  }

  function Lows(t: Table, key: nat, i: nat): set<nat> {
    set j | j in t.low && j / 512 == key && j % 512 < i :: t.low[j]
  }

  /** The part of them that hangs from the entries below i. */
  function Part(t: Table, level: nat, key: nat, i: nat): set<nat> {
    if level == 2 then (set j | j in t.mid && j < i :: t.mid[j]) + (set j | j in t.low && j / 512 < i :: t.low[j])
    else if level == 1 then Lows(t, key, i)
    else {}
  }

  /** Virtual page v is translated through the table page. */
  predicate Under(level: nat, key: nat, v: nat) {
    if level == 2 then true else if level == 1 then v / 512 / 512 == key else v / 512 == key
  }

  predicate NoLeaves(t: Table, level: nat, key: nat) {
    forall v :: v in t.leaf ==> !Under(level, key, v)
  }

  /** No leaf hangs from the entries below i. */
  predicate ClearBelow(t: Table, level: nat, key: nat, i: nat)
    requires level <= 2
  {
    if level == 0 then forall j: nat :: j < i ==> Key(key, j) !in t.leaf
    else forall j: nat :: j < i && HasAt(t, level - 1, Key(key, j)) ==> NoLeaves(t, level - 1, Key(key, j))
  }

  /** Every leaf is readable, writable or executable; that is how freewalk tells it from a table. */
  predicate Typed(t: Table) {
    forall v :: v in t.leaf ==> R(t.leaf[v].flags) || W(t.leaf[v].flags) || X(t.leaf[v].flags)
  }

  /** What freewalk sees in entry i. */
  lemma Entry(m: Memory, t: Table, level: nat, key: nat, i: nat)
    requires Holds(m, t) && Typed(t) && level <= 2 && HasAt(t, level, key) && i < 512
    ensures var p := PageAt(t, level, key);
            && IsPage(m, p)
            && var (w, c) := (m[p][i], Key(key, i));
               && (level > 0 && HasAt(t, level - 1, c) ==>
                     V(w) && !R(w) && !W(w) && !X(w) && PtePa(w) == PageAt(t, level - 1, c))
               && (level == 0 && c in t.leaf ==> V(w) && (R(w) || W(w) || X(w)))
               && (V(w) ==> if level == 0 then c in t.leaf else HasAt(t, level - 1, c))
  {
    hide Pte, PtePa, PteFlags, R, W, X;
    var c := Key(key, i);
    assert level == 2 ==> c == i;
    if level == 1 { assert MidOk(m, t, key); }
    if level == 0 { assert LowOk(m, t, key); }
    var w := m[PageAt(t, level, key)][i];
    if level > 0 && HasAt(t, level - 1, c) {
      var q := PageAt(t, level - 1, c);
      assert if level == 2 then MidOk(m, t, c) else LowOk(m, t, c);
      assert w == Pte(q, 1);
      PteParts(q, 1);
      FlagBits(w);
      OneBits();
    }
    if level == 0 && c in t.leaf {
      assert LeafOk(t, c);
      PteParts(t.leaf[c].pa, t.leaf[c].flags);
      FlagBits(w);
    }
  }

  lemma OneBits()
    ensures V(1) && !R(1) && !W(1) && !X(1)
  {
  }

  lemma SubWhole(m: Memory, t: Table, level: nat, key: nat)
    requires Holds(m, t) && level <= 2 && HasAt(t, level, key)
    ensures Sub(t, level, key) == {PageAt(t, level, key)} + Part(t, level, key, 512)
    ensures PageAt(t, level, key) !in Part(t, level, key, 512) && Part(t, level, key, 0) == {}
  {
    if level == 1 { assert t.mid[key] in t.mid.Values; }
    if level == 2 {
      assert forall j :: j in t.mid ==> MidOk(m, t, j);
      assert forall j :: j in t.low ==> LowOk(m, t, j);
      var (a, b) := (set j | j in t.mid && j < 512 :: t.mid[j], set j | j in t.low && j / 512 < 512 :: t.low[j]);
      assert a == t.mid.Values;
      assert b == t.low.Values;
    }
  }

  lemma PartSkip(m: Memory, t: Table, level: nat, key: nat, i: nat)
    requires Holds(m, t) && level <= 2 && HasAt(t, level, key) && i < 512
    requires level > 0 ==> !HasAt(t, level - 1, Key(key, i))
    ensures Part(t, level, key, i + 1) == Part(t, level, key, i)
  {
    if level == 1 {
      forall j | j in t.low && j / 512 == key ensures j % 512 != i { KeyOf(j); }
    }
    if level == 2 {
      forall j | j in t.low ensures j / 512 != i { assert LowOk(m, t, j); }
    }
  }

  lemma PartStep(m: Memory, t: Table, level: nat, key: nat, i: nat)
    requires Holds(m, t) && 1 <= level <= 2 && HasAt(t, level, key) && i < 512
    requires HasAt(t, level - 1, Key(key, i))
    ensures Part(t, level, key, i + 1) == Part(t, level, key, i) + Sub(t, level - 1, Key(key, i))
    ensures Part(t, level, key, i) !! Sub(t, level - 1, Key(key, i))
  {
    var c := Key(key, i);
    if level == 1 {
      KeyParts(key, i);
      forall j | j in t.low && j / 512 == key && j % 512 == i ensures j == c { KeyOf(j); }
    } else {
      MidStep(m, t, i);
    }
  }

  lemma MidStep(m: Memory, t: Table, i: nat)
    requires Holds(m, t) && i in t.mid && i < 512
    ensures Part(t, 2, 0, i + 1) == Part(t, 2, 0, i) + Sub(t, 1, i)
    ensures Part(t, 2, 0, i) !! Sub(t, 1, i)
  {
    var (a0, a1) := (set j | j in t.mid && j < i :: t.mid[j], set j | j in t.mid && j < i + 1 :: t.mid[j]);
    var (b0, b1) := (set j | j in t.low && j / 512 < i :: t.low[j], set j | j in t.low && j / 512 < i + 1 :: t.low[j]);
    assert a1 == a0 + {t.mid[i]};
    assert b1 == b0 + Lows(t, i, 512);
    assert forall j :: j in t.mid ==> t.mid[j] in t.mid.Values;
    assert forall j :: j in t.low ==> t.low[j] in t.low.Values;
  }

  lemma PartMono(t: Table, level: nat, key: nat, i: nat)
    requires level <= 2 && i <= 512
    ensures Part(t, level, key, i) <= Part(t, level, key, 512)
  {
  }

  /** A leaf under an entry is a leaf under the page. */
  lemma LeafBelow(t: Table, level: nat, key: nat, i: nat)
    requires 1 <= level <= 2 && i < 512 && !NoLeaves(t, level - 1, Key(key, i))
    ensures !NoLeaves(t, level, key)
  {
  }

  lemma LeafHere(t: Table, key: nat, i: nat)
    requires i < 512 && Key(key, i) in t.leaf
    ensures !NoLeaves(t, 0, key)
  {
  }

  lemma AllClear(m: Memory, t: Table, level: nat, key: nat)
    requires Holds(m, t) && level <= 2 && HasAt(t, level, key) && ClearBelow(t, level, key, 512)
    ensures NoLeaves(t, level, key)
  {
    forall v | v in t.leaf ensures !Under(level, key, v) {
      assert LeafOk(t, v) && LowOk(m, t, v / 512);
      KeyOf(v);
      KeyOf(v / 512);
      assert MidOk(m, t, v / 512 / 512);
      assert level == 2 ==> Key(0, v / 512 / 512) == v / 512 / 512;
      assert level == 2 ==> Under(1, v / 512 / 512, v);
    }
  }

  lemma ClearNone(t: Table, level: nat, key: nat)
    requires level <= 2
    ensures ClearBelow(t, level, key, 0)
  {
  }

  lemma ClearStep(t: Table, level: nat, key: nat, i: nat)
    requires level <= 2 && ClearBelow(t, level, key, i)
    requires if level == 0 then Key(key, i) !in t.leaf
             else HasAt(t, level - 1, Key(key, i)) ==> NoLeaves(t, level - 1, Key(key, i))
    ensures ClearBelow(t, level, key, i + 1)
  {
  }
}
