/** Which disk blocks belong to which inode, and the bitmap that records it. */
module FsOwner {
  import opened Blocks
  import opened Common
  import opened FsBits

  const NDIRECT := 12
  const NINDIRECT := 256
  const MAXFILE := NDIRECT + NINDIRECT
  const SLOTS := NDIRECT + 1 + NINDIRECT

  /** Superblock fields: [.. | bitmap from bmapstart | data from datastart | size). */
  datatype Geo = Geo(size: nat, bmapstart: nat, datastart: nat) {
    predicate Ok() {
      0 < bmapstart && 0 < size < WORD && bmapstart + (size - 1) / BPB < datastart <= size
    }
  }

  /** An inode: four 16-bit fields, the size, and where its contents are. */
  datatype Inode = Inode(kind: nat, major: nat, minor: nat, nlink: nat, size: nat, addrs: seq<nat>) {
    predicate Shorts() { kind < 0x1_0000 && major < 0x1_0000 && minor < 0x1_0000 && nlink < 0x1_0000 }
  }

  predicate Used(s: seq<Block>, g: Geo, b: nat)
    requires g.Ok() && |s| == g.size && b < g.size
  {
    BlockBit(s[b / BPB + g.bmapstart], b % BPB)
  }

  /** The bit of block b in bitmap block b / 8192 is bit i % 8 of byte i / 8, for i = b % 8192. */
  lemma UsedIs(s: seq<Block>, g: Geo, b: nat)
    requires g.Ok() && |s| == g.size && b < g.size
    ensures Used(s, g, b) <==> HasBit(s[b / 8192 + g.bmapstart][b % 8192 / 8], Pow2(b % 8192 % 8))
  {
    hide BlockBit, HasBit, Pow2;
    BlockBitIs(s[b / 8192 + g.bmapstart], b % 8192);
  }

  function SetUsed(s: seq<Block>, g: Geo, b: nat, v: bool): (r: seq<Block>)
    requires g.Ok() && |s| == g.size && b < g.size
    ensures |r| == |s|
  {
    var n := b / BPB + g.bmapstart;
    s[n := PutBlockBit(s[n], b % BPB, v)]
  }

  lemma UsedSet(s: seq<Block>, g: Geo, b: nat, v: bool, c: nat)
    requires g.Ok() && |s| == g.size && b < g.size && c < g.size
    ensures Used(SetUsed(s, g, b, v), g, c) == if b == c then v else Used(s, g, c)
    ensures c >= g.datastart ==> SetUsed(s, g, b, v)[c] == s[c]
  {
    if b / BPB == c / BPB { BlockBitPut(s[b / BPB + g.bmapstart], b % BPB, v, c % BPB); }
  }

  lemma UsedKept(s: seq<Block>, g: Geo, n: nat, x: Block, c: nat)
    requires g.Ok() && |s| == g.size && g.datastart <= n < g.size && c < g.size
    ensures Used(s[n := x], g, c) == Used(s, g, c)
  {
  }

  // ----- slots: 0..11 direct blocks, 12 the indirect block, 13.. its entries

  predicate InodeOk(g: Geo, ip: Inode) {
    && |ip.addrs| == NDIRECT + 1 && ip.size <= MAXFILE * BSIZE && ip.Shorts()
    && forall k :: 0 <= k <= NDIRECT ==> ip.addrs[k] == 0 || g.datastart <= ip.addrs[k] < g.size
  }

  function Addr(s: seq<Block>, g: Geo, ip: Inode, k: nat): nat
    requires g.Ok() && |s| == g.size && InodeOk(g, ip) && k < SLOTS
  {
    if k <= NDIRECT then ip.addrs[k]
    else if ip.addrs[NDIRECT] == 0 then 0
    else GetWord(s[ip.addrs[NDIRECT]], k - NDIRECT - 1)
  }

  predicate Shaped(s: seq<Block>, g: Geo, ino: seq<Inode>) {
    && g.Ok() && |s| == g.size
    && forall i :: 0 <= i < |ino| ==> InodeOk(g, ino[i])
  }

  /** Slot k of inode i, or 0. */
  function At(s: seq<Block>, g: Geo, ino: seq<Inode>, i: nat, k: nat): nat
    requires Shaped(s, g, ino) && i < |ino| && k < SLOTS
  {
    Addr(s, g, ino[i], k)
  }

  predicate Owned(s: seq<Block>, g: Geo, ino: seq<Inode>, b: nat)
    requires Shaped(s, g, ino)
  {
    exists i: nat, k: nat :: i < |ino| && k < SLOTS && At(s, g, ino, i, k) == b
  }

  /** The bitmap marks exactly the metadata, the blocks owned by inodes, and the blocks in
      `loose` (allocated, not yet stored in a slot); no block is owned twice. */
  predicate Owners(s: seq<Block>, g: Geo, ino: seq<Inode>, loose: set<nat>) {
    && Shaped(s, g, ino)
    && (forall i: nat, k: nat :: i < |ino| && k < SLOTS && At(s, g, ino, i, k) != 0 ==>
          && g.datastart <= At(s, g, ino, i, k) < g.size
          && Used(s, g, At(s, g, ino, i, k)) && At(s, g, ino, i, k) !in loose)
    && (forall i: nat, k: nat, j: nat, l: nat ::
          i < |ino| && k < SLOTS && j < |ino| && l < SLOTS && (i != j || k != l) && At(s, g, ino, i, k) != 0 ==>
            At(s, g, ino, i, k) != At(s, g, ino, j, l))
    && (forall b: nat :: g.datastart <= b < g.size && Used(s, g, b) ==> b in loose || Owned(s, g, ino, b))
    && (forall b: nat :: b < g.datastart ==> Used(s, g, b))
    && (forall b <- loose :: g.datastart <= b < g.size && Used(s, g, b))
  }

  /** A block that is not an indirect block of any inode. */
  predicate NotIndirect(g: Geo, ino: seq<Inode>, b: nat) {
    forall i :: 0 <= i < |ino| && InodeOk(g, ino[i]) ==> ino[i].addrs[NDIRECT] != b
  }

  /** Data written to such a block changes no slot. */
  lemma WriteData(s: seq<Block>, g: Geo, ino: seq<Inode>, loose: set<nat>, b: nat, x: Block)
    requires Owners(s, g, ino, loose) && g.datastart <= b < g.size && NotIndirect(g, ino, b)
    ensures Owners(s[b := x], g, ino, loose)
    ensures forall i: nat, k: nat :: i < |ino| && k < SLOTS ==> At(s[b := x], g, ino, i, k) == At(s, g, ino, i, k)
  {
    var s' := s[b := x];
    forall c: nat | c < g.size ensures Used(s', g, c) == Used(s, g, c) { UsedKept(s, g, b, x, c); }
    assert forall i: nat, k: nat :: i < |ino| && k < SLOTS ==> At(s', g, ino, i, k) == At(s, g, ino, i, k);
    OwnedSame(s, s', g, ino);
  }

  lemma OwnedSame(s: seq<Block>, s': seq<Block>, g: Geo, ino: seq<Inode>)
    requires Shaped(s, g, ino) && Shaped(s', g, ino)
    requires forall i: nat, k: nat :: i < |ino| && k < SLOTS ==> At(s', g, ino, i, k) == At(s, g, ino, i, k)
    ensures forall b: nat :: Owned(s', g, ino, b) == Owned(s, g, ino, b)
  {
  }

  /** An unused block is in no slot. */
  lemma UnusedFree(s: seq<Block>, g: Geo, ino: seq<Inode>, loose: set<nat>, b: nat)
    requires Owners(s, g, ino, loose) && b < g.size && !Used(s, g, b)
    ensures g.datastart <= b && b !in loose && NotIndirect(g, ino, b)
    ensures forall i: nat, k: nat :: i < |ino| && k < SLOTS ==> At(s, g, ino, i, k) != b
  {
    forall i: nat, k: nat | i < |ino| && k < SLOTS ensures At(s, g, ino, i, k) != b {
    }
    forall i | 0 <= i < |ino| ensures ino[i].addrs[NDIRECT] != b { assert At(s, g, ino, i, NDIRECT) != b; }
  }

  /** balloc marks b used and zeroes it: b is loose. */
  lemma Allocate(s: seq<Block>, g: Geo, ino: seq<Inode>, loose: set<nat>, b: nat, zero: Block)
    requires Owners(s, g, ino, loose) && b < g.size && !Used(s, g, b)
    ensures Owners(SetUsed(s, g, b, true)[b := zero], g, ino, loose + {b})
    ensures forall i: nat, k: nat :: i < |ino| && k < SLOTS ==>
              At(SetUsed(s, g, b, true)[b := zero], g, ino, i, k) == At(s, g, ino, i, k)
  {
    hide Used, SetUsed;
    var s' := SetUsed(s, g, b, true);
    UnusedFree(s, g, ino, loose, b);
    forall c: nat | c < g.size
      ensures Used(s', g, c) == (b == c || Used(s, g, c)) && (c >= g.datastart ==> s'[c] == s[c])
    {
      UsedSet(s, g, b, true, c);
    }
    assert forall i: nat, k: nat :: i < |ino| && k < SLOTS ==> At(s', g, ino, i, k) == At(s, g, ino, i, k);
    OwnedSame(s, s', g, ino);
    assert Owners(s', g, ino, loose + {b});
    WriteData(s', g, ino, loose + {b}, b, zero);
  }

  /** bfree of a loose block. */
  lemma Release(s: seq<Block>, g: Geo, ino: seq<Inode>, loose: set<nat>, b: nat)
    requires Owners(s, g, ino, loose) && b in loose
    ensures Owners(SetUsed(s, g, b, false), g, ino, loose - {b})
    ensures forall i: nat, k: nat :: i < |ino| && k < SLOTS ==>
              At(SetUsed(s, g, b, false), g, ino, i, k) == At(s, g, ino, i, k)
  {
    hide Used, SetUsed;
    var s' := SetUsed(s, g, b, false);
    forall c: nat | c < g.size
      ensures Used(s', g, c) == (b != c && Used(s, g, c)) && (c >= g.datastart ==> s'[c] == s[c])
    {
      UsedSet(s, g, b, false, c);
    }
    assert forall i: nat, k: nat :: i < |ino| && k < SLOTS ==> At(s', g, ino, i, k) == At(s, g, ino, i, k);
    OwnedSame(s, s', g, ino);
  }

  /** Slot k of inode i goes from `was` to `now`; all other slots and the bitmap stay. */
  predicate SlotChanged(s: seq<Block>, s': seq<Block>, g: Geo, ino: seq<Inode>, ino': seq<Inode>, i: nat, k: nat,
                        was: nat, now: nat)
  {
    && Shaped(s, g, ino) && Shaped(s', g, ino') && |ino'| == |ino| && i < |ino| && k < SLOTS
    && At(s, g, ino, i, k) == was && At(s', g, ino', i, k) == now
    && (forall j: nat, l: nat :: j < |ino| && l < SLOTS && (j != i || l != k) ==>
          At(s', g, ino', j, l) == At(s, g, ino, j, l))
    && (forall b: nat :: b < g.size ==> Used(s', g, b) == Used(s, g, b))
  }

  lemma SlotOwned(s: seq<Block>, s': seq<Block>, g: Geo, ino: seq<Inode>, ino': seq<Inode>, i: nat, k: nat, was: nat,
                  now: nat, b: nat)
    requires SlotChanged(s, s', g, ino, ino', i, k, was, now) && Owned(s, g, ino, b) && b != was
    ensures Owned(s', g, ino', b)
  {
  }

  /** A loose block is stored in an empty slot. */
  lemma FillSlot(s: seq<Block>, s': seq<Block>, g: Geo, ino: seq<Inode>, ino': seq<Inode>, loose: set<nat>, i: nat,
                 k: nat, b: nat)
    requires Owners(s, g, ino, loose) && b in loose && SlotChanged(s, s', g, ino, ino', i, k, 0, b)
    ensures Owners(s', g, ino', loose - {b})
  {
    forall c: nat | g.datastart <= c < g.size && Used(s', g, c) ensures c in loose - {b} || Owned(s', g, ino', c) {
      if c == b {
        assert At(s', g, ino', i, k) == c;
      } else if c !in loose {
        SlotOwned(s, s', g, ino, ino', i, k, 0, b, c);
      }
    }
  }

  /** A slot is emptied: its block is loose. */
  lemma EmptySlot(s: seq<Block>, s': seq<Block>, g: Geo, ino: seq<Inode>, ino': seq<Inode>, loose: set<nat>, i: nat,
                  k: nat, b: nat)
    requires Owners(s, g, ino, loose) && b != 0 && SlotChanged(s, s', g, ino, ino', i, k, b, 0)
    ensures Owners(s', g, ino', loose + {b})
  {
    forall c: nat | g.datastart <= c < g.size && Used(s', g, c) ensures c in loose + {b} || Owned(s', g, ino', c) {
      if c != b && c !in loose { SlotOwned(s, s', g, ino, ino', i, k, b, 0, c); }
    }
  }

  function SetAddr(ino: seq<Inode>, i: nat, k: nat, b: nat): seq<Inode>
    requires i < |ino| && k < |ino[i].addrs|
  {
    ino[i := ino[i].(addrs := ino[i].addrs[k := b])]
  }

  /** Writing a direct slot, or the indirect slot while its entries read as zero. */
  lemma SetDirect(s: seq<Block>, g: Geo, ino: seq<Inode>, i: nat, k: nat, b: nat)
    requires Shaped(s, g, ino) && i < |ino| && k <= NDIRECT && (b == 0 || g.datastart <= b < g.size)
    requires k == NDIRECT && b != 0 ==> forall j :: 0 <= j < NINDIRECT ==> GetWord(s[b], j) == 0
    requires k == NDIRECT ==> forall l: nat :: NDIRECT < l < SLOTS ==> At(s, g, ino, i, l) == 0
    ensures SlotChanged(s, s, g, ino, SetAddr(ino, i, k, b), i, k, At(s, g, ino, i, k), b)
  {
  }

  /** Writing an entry of inode i's indirect block. */
  lemma SetEntry(s: seq<Block>, g: Geo, ino: seq<Inode>, loose: set<nat>, i: nat, j: nat, b: nat)
    requires Owners(s, g, ino, loose) && i < |ino| && j < NINDIRECT && b < WORD
    requires ino[i].addrs[NDIRECT] != 0
    ensures var ind := ino[i].addrs[NDIRECT];
            SlotChanged(s, s[ind := PutWord(s[ind], j, b)], g, ino, ino, i, NDIRECT + 1 + j,
                        At(s, g, ino, i, NDIRECT + 1 + j), b)
  {
    var ind := ino[i].addrs[NDIRECT];
    var s' := s[ind := PutWord(s[ind], j, b)];
    assert At(s, g, ino, i, NDIRECT) == ind;
    forall c: nat | c < g.size ensures Used(s', g, c) == Used(s, g, c) { UsedKept(s, g, ind, s'[ind], c); }
    forall l: nat, k: nat | l < |ino| && k < SLOTS && (l != i || k != NDIRECT + 1 + j)
      ensures At(s', g, ino, l, k) == At(s, g, ino, l, k)
    {
      if l != i { assert At(s, g, ino, l, NDIRECT) != ind; }
      else if k > NDIRECT { GetPut(s[ind], j, b, k - NDIRECT - 1); }
    }
    GetPut(s[ind], j, b, j);
  }

  /** bfree of the block in a direct slot, then the slot set to 0. */
  lemma FreeDirect(s: seq<Block>, g: Geo, ino: seq<Inode>, i: nat, k: nat)
    requires Owners(s, g, ino, {}) && i < |ino| && k <= NDIRECT && ino[i].addrs[k] != 0
    requires k == NDIRECT ==> forall l: nat :: NDIRECT < l < SLOTS ==> At(s, g, ino, i, l) == 0
    ensures var b := ino[i].addrs[k];
            && g.datastart <= b < g.size && Used(s, g, b)
            && Owners(SetUsed(s, g, b, false), g, SetAddr(ino, i, k, 0), {})
            && forall l: nat :: l < SLOTS && l != k ==>
                 At(SetUsed(s, g, b, false), g, SetAddr(ino, i, k, 0), i, l) == At(s, g, ino, i, l)
  {
    hide Used, SetUsed, Owned;
    var (b, ino') := (ino[i].addrs[k], SetAddr(ino, i, k, 0));
    assert At(s, g, ino, i, k) == b;
    SetDirect(s, g, ino, i, k, 0);
    EmptySlot(s, s, g, ino, ino', {}, i, k, b);
    assert {} + {b} == {b} && {b} - {b} == {};
    Release(s, g, ino', {b}, b);
  }

  /** bfree of the block in an entry, and the entry set to 0. */
  lemma FreeEntry(s: seq<Block>, g: Geo, ino: seq<Inode>, i: nat, j: nat)
    requires Owners(s, g, ino, {}) && i < |ino| && j < NINDIRECT && ino[i].addrs[NDIRECT] != 0
    requires At(s, g, ino, i, NDIRECT + 1 + j) != 0
    ensures var (b, ind) := (At(s, g, ino, i, NDIRECT + 1 + j), ino[i].addrs[NDIRECT]);
            && g.datastart <= b < g.size && Used(s, g, b) && g.datastart <= ind < g.size
            && Owners(SetUsed(s[ind := PutWord(s[ind], j, 0)], g, b, false), g, ino, {})
  {
    hide Used, SetUsed, Owned;
    var (b, ind) := (At(s, g, ino, i, NDIRECT + 1 + j), ino[i].addrs[NDIRECT]);
    var s' := s[ind := PutWord(s[ind], j, 0)];
    SetEntry(s, g, ino, {}, i, j, 0);
    EmptySlot(s, s', g, ino, ino, {}, i, NDIRECT + 1 + j, b);
    assert {} + {b} == {b} && {b} - {b} == {};
    Release(s', g, ino, {b}, b);
  }

  /** The bitmap update does not see data blocks. */
  lemma SetUsedApart(s: seq<Block>, g: Geo, b: nat, v: bool, n: nat, x: Block)
    requires g.Ok() && |s| == g.size && b < g.size && g.datastart <= n < g.size
    ensures SetUsed(s[n := x], g, b, v) == SetUsed(s, g, b, v)[n := x]
  {
  }
}
