/** The block map of an inode: data addresses, and what growing it leaves alone. */
module FsMap {
  import opened Blocks
  import opened FsBits
  import opened FsOwner

  function Zero(): Block { seq(1024, _ => 0) }

  lemma ZeroWords(j: nat)
    requires j < WORDS
    ensures GetWord(Zero(), j) == 0
  {
  }

  /** The slot of the bn-th data block. */
  function Slot(bn: nat): nat { if bn < NDIRECT then bn else bn + 1 }

  function DataAddr(s: seq<Block>, g: Geo, ip: Inode, bn: nat): nat
    requires g.Ok() && |s| == g.size && InodeOk(g, ip) && bn < MAXFILE
  {
    Addr(s, g, ip, Slot(bn))
  }

  /** The first twelve blocks are listed in the inode, the others in the block its last address names,
      word by word. */
  lemma DataAddrIs(s: seq<Block>, g: Geo, ip: Inode, bn: nat)
    requires g.Ok() && |s| == g.size && InodeOk(g, ip) && bn < MAXFILE
    ensures bn < 12 ==> DataAddr(s, g, ip, bn) == ip.addrs[bn]
    ensures bn >= 12 && ip.addrs[12] == 0 ==> DataAddr(s, g, ip, bn) == 0
    ensures bn >= 12 && ip.addrs[12] != 0 ==>
              ip.addrs[12] < |s| && DataAddr(s, g, ip, bn) == GetWord(s[ip.addrs[12]], bn - 12)
  {
  }

  /** Slot k of inode i is the only one that may differ, and no inode's size does. */
  predicate OtherSlots(s: seq<Block>, s': seq<Block>, g: Geo, ino: seq<Inode>, ino': seq<Inode>, i: nat, k: nat) {
    && Shaped(s, g, ino) && Shaped(s', g, ino') && |ino'| == |ino|
    && (forall j :: 0 <= j < |ino| ==> ino'[j].size == ino[j].size && (j != i ==> ino'[j] == ino[j]))
    && forall j: nat, l: nat :: j < |ino| && l < SLOTS && (j != i || l != k) ==>
         At(s', g, ino', j, l) == At(s, g, ino, j, l)
  }

  /** Blocks outside the metadata and outside `ns` keep their contents. */
  predicate SameBlocks(s: seq<Block>, s': seq<Block>, g: Geo, ns: set<nat>) {
    |s'| == |s| == g.size && forall c: nat :: g.datastart <= c < g.size && c !in ns ==> s'[c] == s[c]
  }

  /** Every data block that an inode had, it still has, with the same contents. */
  predicate Kept(s: seq<Block>, s': seq<Block>, g: Geo, ino: seq<Inode>, ino': seq<Inode>) {
    && Shaped(s, g, ino) && Shaped(s', g, ino') && |ino'| == |ino|
    && (forall j :: 0 <= j < |ino| ==> ino'[j].size == ino[j].size)
    && forall j: nat, bn: nat :: j < |ino| && bn < MAXFILE && DataAddr(s, g, ino[j], bn) != 0 ==>
         && DataAddr(s', g, ino'[j], bn) == DataAddr(s, g, ino[j], bn) < g.size
         && s'[DataAddr(s, g, ino[j], bn)] == s[DataAddr(s, g, ino[j], bn)]
  }

  /** Only the bn-th data address of inode i may differ. */
  predicate OtherData(s: seq<Block>, s': seq<Block>, g: Geo, ino: seq<Inode>, ino': seq<Inode>, i: nat, bn: nat) {
    && Shaped(s, g, ino) && Shaped(s', g, ino') && |ino'| == |ino|
    && (forall j :: 0 <= j < |ino| && j != i ==> ino'[j] == ino[j])
    && forall j: nat, n: nat :: j < |ino| && n < MAXFILE && (j != i || n != bn) ==>
         DataAddr(s', g, ino'[j], n) == DataAddr(s, g, ino[j], n)
  }

  /** Growing one empty slot keeps all data: the new block was in no slot, and the block that
      holds the entry is not a data block. */
  lemma GrowKeeps(s: seq<Block>, s': seq<Block>, g: Geo, ino: seq<Inode>, ino': seq<Inode>, i: nat, k: nat,
                  ns: set<nat>)
    requires Owners(s, g, ino, {}) && OtherSlots(s, s', g, ino, ino', i, k) && i < |ino| && k < SLOTS
    requires At(s, g, ino, i, k) == 0 && SameBlocks(s, s', g, ns)
    requires forall b <- ns :: b < g.size && (!Used(s, g, b) || b == ino[i].addrs[NDIRECT] != 0)
    ensures Kept(s, s', g, ino, ino')
  {
    hide Used;
    forall j: nat, bn: nat | j < |ino| && bn < MAXFILE && DataAddr(s, g, ino[j], bn) != 0
      ensures DataAddr(s', g, ino'[j], bn) == DataAddr(s, g, ino[j], bn) < g.size
      ensures s'[DataAddr(s, g, ino[j], bn)] == s[DataAddr(s, g, ino[j], bn)]
    {
      var a := At(s, g, ino, j, Slot(bn));
      assert a == DataAddr(s, g, ino[j], bn) && At(s', g, ino', j, Slot(bn)) == a;
      assert a != At(s, g, ino, i, NDIRECT);
      assert a !in ns;
    }
  }

  lemma OtherSlotsData(s: seq<Block>, s': seq<Block>, g: Geo, ino: seq<Inode>, ino': seq<Inode>, i: nat, bn: nat)
    requires bn < MAXFILE && OtherSlots(s, s', g, ino, ino', i, Slot(bn))
    ensures OtherData(s, s', g, ino, ino', i, bn)
  {
    forall j: nat, n: nat | j < |ino| && n < MAXFILE && (j != i || n != bn)
      ensures DataAddr(s', g, ino'[j], n) == DataAddr(s, g, ino[j], n)
    {
      assert At(s', g, ino', j, Slot(n)) == At(s, g, ino, j, Slot(n));
    }
  }

  lemma OtherSlotsIndirect(s: seq<Block>, s': seq<Block>, g: Geo, ino: seq<Inode>, ino': seq<Inode>, i: nat, bn: nat)
    requires OtherSlots(s, s', g, ino, ino', i, NDIRECT)
    ensures OtherData(s, s', g, ino, ino', i, bn)
    ensures bn < MAXFILE && i < |ino| ==> DataAddr(s', g, ino'[i], bn) == DataAddr(s, g, ino[i], bn)
  {
    forall j: nat, n: nat | j < |ino| && n < MAXFILE
      ensures DataAddr(s', g, ino'[j], n) == DataAddr(s, g, ino[j], n)
    {
      assert At(s', g, ino', j, Slot(n)) == At(s, g, ino, j, Slot(n));
    }
  }

  lemma ShapedOwners(s: seq<Block>, g: Geo, ino: seq<Inode>)
    requires Owners(s, g, ino, {})
    ensures Shaped(s, g, ino)
  {
  }

  lemma KeptRefl(s: seq<Block>, g: Geo, ino: seq<Inode>)
    requires Owners(s, g, ino, {})
    ensures Kept(s, s, g, ino, ino)
  {
    forall j: nat, bn: nat | j < |ino| && bn < MAXFILE && DataAddr(s, g, ino[j], bn) != 0
      ensures DataAddr(s, g, ino[j], bn) < g.size
    {
      assert At(s, g, ino, j, Slot(bn)) != 0;
    }
  }

  /** The blocks before the bitmap, the inode blocks among them, are the same. */
  predicate SameHead(s: seq<Block>, s': seq<Block>, g: Geo) {
    |s'| == |s| == g.size && forall c: nat :: c < g.bmapstart && c < g.size ==> s'[c] == s[c]
  }

  /** Every block that changed since s0 has been logged, and what has been logged since lies at
      or above lo. */
  predicate Journaled(lo: nat, s0: seq<Block>, logged0: set<nat>, s: seq<Block>, logged: set<nat>) {
    && |s| == |s0| && logged0 <= logged
    && (forall c: nat :: c < |s| && s[c] != s0[c] ==> c in logged)
    && (forall c <- logged :: c in logged0 || lo <= c < |s|)
  }

  lemma JournaledRefl(lo: nat, s: seq<Block>, logged: set<nat>)
    ensures Journaled(lo, s, logged, s, logged)
  {
  }

  lemma JournaledTrans(lo: nat, lo': nat, s0: seq<Block>, l0: set<nat>, s1: seq<Block>, l1: set<nat>,
                       s2: seq<Block>, l2: set<nat>)
    requires Journaled(lo, s0, l0, s1, l1) && Journaled(lo', s1, l1, s2, l2)
    ensures Journaled(if lo <= lo' then lo else lo', s0, l0, s2, l2)
  {
  }

  /** One more block is written and logged. */
  lemma JournaledPut(lo: nat, s0: seq<Block>, l0: set<nat>, s1: seq<Block>, l1: set<nat>, n: nat, x: Block)
    requires Journaled(lo, s0, l0, s1, l1) && lo <= n < |s1|
    ensures Journaled(lo, s0, l0, s1[n := x], l1 + {n})
  {
  }

  /** balloc's two writes are logged. */
  lemma AllocateJournaled(s: seq<Block>, g: Geo, b: nat, logged: set<nat>)
    requires g.Ok() && |s| == g.size && g.datastart <= b < g.size
    ensures Journaled(g.bmapstart, s, logged, SetUsed(s, g, b, true)[b := Zero()], logged + {b / BPB + g.bmapstart, b})
  {
  }

  function Nz(b: nat): (r: set<nat>)
    ensures |r| <= 1
  {
    if b == 0 then {} else {b}
  }

  /** What bmap promises about the state, and the blocks it logs: bitmap blocks bm, the data
      block r and the indirect block. */
  predicate Mapped(g: Geo, s0: seq<Block>, ino0: seq<Inode>, logged0: set<nat>,
                   s: seq<Block>, ino: seq<Inode>, logged: set<nat>, i: nat, bn: nat, r: nat, bm: set<nat>)
  {
    && Owners(s, g, ino, {}) && Kept(s0, s, g, ino0, ino) && OtherData(s0, s, g, ino0, ino, i, bn)
    && SameHead(s0, s, g) && Journaled(g.bmapstart, s0, logged0, s, logged)
    && i < |ino| == |ino0| && bn < MAXFILE && DataAddr(s, g, ino[i], bn) == r && r < g.size
    && (r == 0 ==> forall c: nat :: c < g.size ==> Used(s, g, c))
    && (DataAddr(s0, g, ino0[i], bn) != 0 ==> s == s0 && ino == ino0 && logged == logged0 && bm == {})
    && (DataAddr(s0, g, ino0[i], bn) == 0 && r != 0 ==> s[r] == Zero())
    && logged <= logged0 + bm + Nz(r) + Nz(ino[i].addrs[NDIRECT])
    && (ino0[i].addrs[NDIRECT] != 0 ==> ino[i].addrs[NDIRECT] == ino0[i].addrs[NDIRECT])
    && |bm| <= (if ino0[i].addrs[NDIRECT] == 0 && ino[i].addrs[NDIRECT] != 0 then 2 else 1)
  }

  /** The indirect block of inode i exists now, or the disk is full. */
  predicate Ensured(g: Geo, s0: seq<Block>, ino0: seq<Inode>, logged0: set<nat>,
                    s: seq<Block>, ino: seq<Inode>, logged: set<nat>, i: nat, bn: nat, bm: set<nat>)
  {
    && Owners(s, g, ino, {}) && Kept(s0, s, g, ino0, ino) && OtherData(s0, s, g, ino0, ino, i, bn)
    && SameHead(s0, s, g) && Journaled(g.bmapstart, s0, logged0, s, logged)
    && i < |ino| && NDIRECT <= bn < MAXFILE && DataAddr(s, g, ino[i], bn) == DataAddr(s0, g, ino0[i], bn)
    && (ino[i].addrs[NDIRECT] == 0 ==> bm == {} && forall c: nat :: c < g.size ==> Used(s, g, c))
    && logged <= logged0 + bm + Nz(ino[i].addrs[NDIRECT])
    && if ino0[i].addrs[NDIRECT] == 0 then |bm| <= 1 else s == s0 && ino == ino0 && logged == logged0 && bm == {}
  }

  lemma EnsuredMapped(g: Geo, s0: seq<Block>, ino0: seq<Inode>, logged0: set<nat>, s1: seq<Block>, ino1: seq<Inode>,
                      logged1: set<nat>, s: seq<Block>, logged: set<nat>, i: nat, bn: nat, r: nat, b1: set<nat>,
                      b2: set<nat>)
    requires Ensured(g, s0, ino0, logged0, s1, ino1, logged1, i, bn, b1)
    requires ino1[i].addrs[NDIRECT] != 0 && Mapped(g, s1, ino1, logged1, s, ino1, logged, i, bn, r, b2)
    ensures Mapped(g, s0, ino0, logged0, s, ino1, logged, i, bn, r, b1 + b2)
  {
  }

  lemma EnsuredFull(g: Geo, s0: seq<Block>, ino0: seq<Inode>, logged0: set<nat>, s1: seq<Block>, ino1: seq<Inode>,
                    logged1: set<nat>, i: nat, bn: nat, b1: set<nat>)
    requires Ensured(g, s0, ino0, logged0, s1, ino1, logged1, i, bn, b1) && ino1[i].addrs[NDIRECT] == 0
    ensures Mapped(g, s0, ino0, logged0, s1, ino1, logged1, i, bn, 0, b1)
  {
  }

  lemma AllocateSame(s: seq<Block>, g: Geo, b: nat)
    requires g.Ok() && |s| == g.size && g.datastart <= b < g.size
    ensures var s' := SetUsed(s, g, b, true)[b := Zero()];
            SameBlocks(s, s', g, {b}) && s'[b] == Zero() && SameHead(s, s', g)
  {
  }

  lemma SameRefl(s: seq<Block>, g: Geo, ino: seq<Inode>, i: nat, k: nat)
    requires Shaped(s, g, ino)
    ensures OtherSlots(s, s, g, ino, ino, i, k) && SameHead(s, s, g) && SameBlocks(s, s, g, {})
  {
  }

  /** s with word j of block n set to w. */
  function WordSet(s: seq<Block>, n: nat, j: nat, w: Word): (r: seq<Block>)
    requires n < |s| && j < WORDS
    ensures |r| == |s|
  {
    s[n := PutWord(s[n], j, w)]
  }

  /** balloc's block r stored in entry j of inode i's indirect block. */
  lemma GrownEntry(s0: seq<Block>, g: Geo, ino: seq<Inode>, i: nat, j: nat, r: nat, logged0: set<nat>)
    requires Owners(s0, g, ino, {}) && i < |ino| && j < NINDIRECT && r < g.size && !Used(s0, g, r)
    requires ino[i].addrs[NDIRECT] != 0 && At(s0, g, ino, i, NDIRECT + 1 + j) == 0
    ensures var ind := ino[i].addrs[NDIRECT];
            var s1 := SetUsed(s0, g, r, true)[r := Zero()];
            && g.datastart <= ind < g.size && g.datastart <= r && r != ind
            && var s := WordSet(s1, ind, j, r);
               && Owners(s, g, ino, {}) && OtherSlots(s0, s, g, ino, ino, i, NDIRECT + 1 + j)
               && At(s, g, ino, i, NDIRECT + 1 + j) == r && s[r] == Zero()
               && SameHead(s0, s, g) && SameBlocks(s0, s, g, {r, ind})
               && Journaled(g.bmapstart, s0, logged0, s, logged0 + {r / BPB + g.bmapstart, r} + {ind})
  {
    hide Used, SetUsed, Owned, Journaled, Zero, PutWord;
    var ind := ino[i].addrs[NDIRECT];
    var s1 := SetUsed(s0, g, r, true)[r := Zero()];
    assert At(s0, g, ino, i, NDIRECT) == ind;
    UnusedFree(s0, g, ino, {}, r);
    Allocate(s0, g, ino, {}, r, Zero());
    AllocateSame(s0, g, r);
    AllocateJournaled(s0, g, r, logged0);
    assert {} + {r} == {r} && {r} - {r} == {};
    SetEntry(s1, g, ino, {r}, i, j, r);
    var s := WordSet(s1, ind, j, r);
    FillSlot(s1, s, g, ino, ino, {r}, i, NDIRECT + 1 + j, r);
    JournaledPut(g.bmapstart, s0, logged0, s1, logged0 + {r / BPB + g.bmapstart, r}, ind, PutWord(s1[ind], j, r));
  }

  /** Upper bounds on what a write has logged after some rounds: data blocks ds, bitmap blocks
      bs and the indirect block.  `first` is 1 if the first block existed already. */
  predicate Spent(logged0: set<nat>, logged: set<nat>, ind0: nat, ind: nat, ds: set<nat>, bs: set<nat>, rounds: nat,
                  first: nat)
  {
    && logged <= logged0 + ds + bs + Nz(ind)
    && |ds| <= rounds && first <= 1
    && |bs| <= rounds - (if rounds > 0 then first else 0) + (if ind0 == 0 && ind != 0 then 1 else 0)
    && (ind0 != 0 ==> ind == ind0)
  }

  lemma SpentNext(logged0: set<nat>, logged1: set<nat>, logged: set<nat>, ind0: nat, ind1: nat, ind: nat,
                  ds: set<nat>, bs: set<nat>, rounds: nat, first: nat, a: nat, bm: set<nat>, existed: bool)
    requires Spent(logged0, logged1, ind0, ind1, ds, bs, rounds, first)
    requires logged <= logged1 + bm + Nz(a) + Nz(ind) && (ind1 != 0 ==> ind == ind1)
    requires |bm| <= (if existed then 0 else if ind1 == 0 && ind != 0 then 2 else 1)
    requires rounds == 0 ==> (first == 1 <==> existed)
    ensures Spent(logged0, logged, ind0, ind, ds + Nz(a), bs + bm, rounds + 1, first)
  {
  }

  /** The first j entries of an indirect block read as 0. */
  function Cleared(b: Block, j: nat): Block
    requires j <= NINDIRECT
  {
    if j == 0 then b else PutWord(Cleared(b, j - 1), j - 1, 0)
  }

  lemma {:induction false} ClearedWords(b: Block, j: nat, k: nat)
    requires j <= NINDIRECT && k < NINDIRECT
    ensures GetWord(Cleared(b, j), k) == if k < j then 0 else GetWord(b, k)
  {
    if j > 0 {
      ClearedWords(b, j - 1, k);
      GetPut(Cleared(b, j - 1), j - 1, 0, k);
    }
  }

  /** s with the first j entries of inode i's indirect block cleared. */
  function View(s: seq<Block>, g: Geo, ino: seq<Inode>, i: nat, j: nat): seq<Block>
    requires Shaped(s, g, ino) && i < |ino| && ino[i].addrs[NDIRECT] != 0 && j <= NINDIRECT
  {
    var ind := ino[i].addrs[NDIRECT];
    s[ind := Cleared(s[ind], j)]
  }

  /** One round of itrunc's second loop. */
  lemma FreeListed(s: seq<Block>, g: Geo, ino: seq<Inode>, i: nat, j: nat)
    requires Shaped(s, g, ino) && i < |ino| && ino[i].addrs[NDIRECT] != 0 && j < NINDIRECT
    requires Owners(View(s, g, ino, i, j), g, ino, {})
    ensures var (ind, b) := (ino[i].addrs[NDIRECT], GetWord(s[ino[i].addrs[NDIRECT]], j));
            if b == 0 then Owners(View(s, g, ino, i, j + 1), g, ino, {})
            else && g.datastart <= b < g.size && Used(s, g, b) && SetUsed(s, g, b, false)[ind] == s[ind]
                 && Owners(View(SetUsed(s, g, b, false), g, ino, i, j + 1), g, ino, {})
  {
    hide Used, SetUsed, Owned, Owners;
    var (ind, b) := (ino[i].addrs[NDIRECT], GetWord(s[ino[i].addrs[NDIRECT]], j));
    var v := View(s, g, ino, i, j);
    ClearedWords(s[ind], j, j);
    assert At(v, g, ino, i, NDIRECT + 1 + j) == b;
    assert View(s, g, ino, i, j + 1) == v[ind := PutWord(v[ind], j, 0)];
    if b == 0 {
      ClearZero(v, g, ino, i, j);
    } else {
      FreeEntry(v, g, ino, i, j);
      UsedKept(s, g, ind, v[ind], b);
      UsedSet(s, g, b, false, ind);
      SetUsedApart(s, g, b, false, ind, Cleared(s[ind], j + 1));
      assert View(SetUsed(s, g, b, false), g, ino, i, j + 1) == SetUsed(View(s, g, ino, i, j + 1), g, b, false);
    }
  }

  lemma ClearZero(v: seq<Block>, g: Geo, ino: seq<Inode>, i: nat, j: nat)
    requires Owners(v, g, ino, {}) && i < |ino| && ino[i].addrs[NDIRECT] != 0 && j < NINDIRECT
    requires At(v, g, ino, i, NDIRECT + 1 + j) == 0
    ensures var ind := ino[i].addrs[NDIRECT]; Owners(v[ind := PutWord(v[ind], j, 0)], g, ino, {})
  {
    hide Used, Owned;
    var ind := ino[i].addrs[NDIRECT];
    var v' := v[ind := PutWord(v[ind], j, 0)];
    SetEntry(v, g, ino, {}, i, j, 0);
    assert forall l: nat, k: nat :: l < |ino| && k < SLOTS ==> At(v', g, ino, l, k) == At(v, g, ino, l, k);
    OwnedSame(v, v', g, ino);
  }

  /** The end of itrunc's second half: the indirect block itself goes. */
  lemma FreeIndirect(s: seq<Block>, g: Geo, ino: seq<Inode>, i: nat)
    requires Shaped(s, g, ino) && i < |ino| && ino[i].addrs[NDIRECT] != 0
    requires Owners(View(s, g, ino, i, NINDIRECT), g, ino, {})
    ensures var ind := ino[i].addrs[NDIRECT];
            && g.datastart <= ind < g.size && Used(s, g, ind)
            && Owners(SetUsed(s, g, ind, false), g, SetAddr(ino, i, NDIRECT, 0), {})
  {
    hide Used, SetUsed, Owned, Owners;
    var ind := ino[i].addrs[NDIRECT];
    var v := View(s, g, ino, i, NINDIRECT);
    forall l: nat | NDIRECT < l < SLOTS ensures At(v, g, ino, i, l) == 0 {
      ClearedWords(s[ind], NINDIRECT, l - NDIRECT - 1);
    }
    FreeDirect(v, g, ino, i, NDIRECT);
    UsedKept(s, g, ind, v[ind], ind);
    var (v', ino') := (SetUsed(v, g, ind, false), SetAddr(ino, i, NDIRECT, 0));
    UsedSet(v, g, ind, false, ind);
    UnusedFree(v', g, ino', {}, ind);
    SetUsedApart(s, g, ind, false, ind, v[ind]);
    UsedSet(s, g, ind, false, ind);
    WriteData(v', g, ino', {}, ind, s[ind]);
    assert v'[ind := s[ind]] == SetUsed(s, g, ind, false);
  }

  /** Inode i lost all its slots, the others kept theirs: exactly i's blocks became free. */
  lemma TruncExact(s: seq<Block>, s': seq<Block>, g: Geo, ino: seq<Inode>, ino': seq<Inode>, i: nat, c: nat)
    requires Owners(s, g, ino, {}) && Owners(s', g, ino', {}) && |ino'| == |ino| && i < |ino| && c < g.size
    requires forall k: nat :: k < SLOTS ==> At(s', g, ino', i, k) == 0
    requires forall j: nat, k: nat :: j < |ino| && j != i && k < SLOTS ==> At(s', g, ino', j, k) == At(s, g, ino, j, k)
    ensures Used(s', g, c) <==> Used(s, g, c) && (c == 0 || forall k: nat :: k < SLOTS ==> At(s, g, ino, i, k) != c)
  {
  }

  /** With all data blocks and the other inodes as they were, so are the other inodes' slots. */
  lemma SameSlots(s: seq<Block>, s': seq<Block>, g: Geo, ino: seq<Inode>, ino': seq<Inode>, j: nat)
    requires Shaped(s, g, ino) && Shaped(s', g, ino') && SameBlocks(s, s', g, {}) && j < |ino| == |ino'|
    requires ino'[j] == ino[j]
    ensures forall k: nat :: k < SLOTS ==> At(s', g, ino', j, k) == At(s, g, ino, j, k)
  {
  }

  lemma ViewNothing(s: seq<Block>, g: Geo, ino: seq<Inode>, i: nat)
    requires Owners(s, g, ino, {}) && i < |ino| && ino[i].addrs[NDIRECT] != 0
    ensures Owners(View(s, g, ino, i, 0), g, ino, {})
  {
    assert View(s, g, ino, i, 0) == s;
  }
}
