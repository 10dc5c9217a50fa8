/** fs.c: block allocation, the block map of an inode, and reading and writing its contents. */
module FsFile {
  import opened Blocks
  import opened Common
  import opened FsBits
  import opened FsOwner
  import opened FsMap
  import opened FsBytes
  import opened FsInode
  import opened FsState

  lemma BitPlace(b: nat, bi: nat)
    requires b % BPB == 0 && bi < BPB
    ensures (b + bi) / BPB == b / BPB && (b + bi) % BPB == bi
  {
  }

  /** What was logged since logged0 are bitmap blocks. */
  predicate OnlyBitmap(g: Geo, logged0: set<nat>, logged: set<nat>) {
    forall c <- logged :: c in logged0 || g.bmapstart <= c <= g.bmapstart + (g.size - 1) / BPB
  }

  lemma BitmapTrans(g: Geo, l0: set<nat>, l1: set<nat>, l2: set<nat>)
    requires OnlyBitmap(g, l0, l1) && OnlyBitmap(g, l1, l2)
    ensures OnlyBitmap(g, l0, l2)
  {
  }

  /** The bitmap blocks and one more. */
  lemma BitmapCost(g: Geo, l0: set<nat>, l1: set<nat>, l2: set<nat>, n: nat)
    requires g.Ok() && OnlyBitmap(g, l0, l1) && l2 <= l1 + {n}
    ensures |l2 - l0| <= (g.size - 1) / BPB + 2
  {
    var bits := Interval(g.bmapstart, g.bmapstart + (g.size - 1) / BPB + 1);
    SubsetSize(l2 - l0, bits + {n});
  }

  class Fs {
    const g: Geo
    const inodestart: nat
    var s: seq<Block>      // the blocks, as bread and log_write see them
    var ino: seq<Inode>
    ghost var logged: set<nat>  // blocks passed to log_write

    constructor (g: Geo, inodestart: nat, s: seq<Block>, ino: seq<Inode>)
      ensures this.g == g && this.inodestart == inodestart && this.s == s && this.ino == ino && logged == {}
    {
      this.g, this.inodestart, this.s, this.ino, logged := g, inodestart, s, ino, {};
    }

    /** balloc's scan of one bitmap block: the first clear bit, or where the block or disk ends. */
    method ScanBits(b: nat) returns (bi: nat)
      requires g.Ok() && |s| == g.size && b < g.size && b % BPB == 0
      ensures bi <= BPB && b + bi <= g.size && forall c: nat :: b <= c < b + bi ==> Used(s, g, c)
      ensures bi < BPB && b + bi < g.size ==> !Used(s, g, b + bi)
    {
      hide BlockBit;
      var n := b / BPB + g.bmapstart;
      bi := 0;
      while bi < BPB && b + bi < g.size
        invariant bi <= BPB && b + bi <= g.size && forall c: nat :: b <= c < b + bi ==> Used(s, g, c)
      {
        assert (b + bi) / BPB == b / BPB && (b + bi) % BPB == bi;
        if !BlockBit(s[n], bi) { return; }
        assert Used(s, g, b + bi);
        bi := bi + 1;
      }
    }

    /** balloc: the first block the bitmap has free, marked used and zeroed; 0 if there is none. */
    method Balloc(ghost loose: set<nat>) returns (r: nat)
      requires Owners(s, g, ino, loose)
      modifies this`s, this`logged
      ensures r == 0 ==> s == old(s) && logged == old(logged) && forall c: nat :: c < g.size ==> Used(s, g, c)
      ensures r != 0 ==> && r < g.size && !Used(old(s), g, r) && (forall c: nat :: c < r ==> Used(old(s), g, c))
                         && s == SetUsed(old(s), g, r, true)[r := Zero()]
                         && logged == old(logged) + {r / BPB + g.bmapstart, r}
      ensures r != 0 ==> |s| == g.size && forall o :: 0 <= o < 1024 ==> s[r][o] == 0
    {
      assert g.Ok() && |s| == g.size && Used(s, g, 0);
      hide Owners, BlockBit, PutBlockBit, Zero;
      var b := 0;
      while b < g.size
        invariant s == old(s) && |s| == g.size && logged == old(logged)
        invariant b % BPB == 0 && forall c: nat :: c < b && c < g.size ==> Used(s, g, c)
        decreases g.size - b
      {
        var bi := ScanBits(b);
        if bi < BPB && b + bi < g.size {
          r := b + bi;
          BitPlace(b, bi);
          var n := b / BPB + g.bmapstart;
          s := s[n := PutBlockBit(s[n], bi, true)];
          s := s[r := Zero()];
          logged := logged + {n, r};
          return;
        }
        b := b + BPB;
      }
      r := 0;
    }

    /** bfree; false when it panics because the block is free already. */
    method Bfree(b: nat) returns (ok: bool)
      requires g.Ok() && |s| == g.size && b < g.size
      modifies this`s, this`logged
      ensures ok <==> Used(old(s), g, b)
      ensures ok ==> s == SetUsed(old(s), g, b, false) && logged == old(logged) + {b / BPB + g.bmapstart}
      ensures !ok ==> s == old(s) && logged == old(logged)
      ensures Journaled(g.bmapstart, old(s), old(logged), s, logged)
    {
      var n, bi := b / BPB + g.bmapstart, b % BPB;
      if !BlockBit(s[n], bi) { return false; }
      s := s[n := PutBlockBit(s[n], bi, false)];
      logged := logged + {n};
      ok := true;
    }

    /** bmap's allocation for a direct slot or for the indirect slot. */
    method GrowDirect(i: nat, k: nat) returns (r: nat)
      requires Owners(s, g, ino, {}) && i < |ino| && k <= NDIRECT && At(s, g, ino, i, k) == 0
      modifies this`s, this`ino, this`logged
      ensures Owners(s, g, ino, {}) && OtherSlots(old(s), s, g, old(ino), ino, i, k) && At(s, g, ino, i, k) == r
      ensures SameHead(old(s), s, g) && Journaled(g.bmapstart, old(s), old(logged), s, logged)
      ensures r == 0 ==> && SameBlocks(old(s), s, g, {}) && logged == old(logged)
                         && forall c: nat :: c < g.size ==> Used(s, g, c)
      ensures r != 0 ==> && g.datastart <= r < g.size && !Used(old(s), g, r) && s[r] == Zero()
                         && SameBlocks(old(s), s, g, {r}) && logged == old(logged) + {r / BPB + g.bmapstart, r}
    {
      hide Used, SetUsed, Owned, Journaled;
      r := Balloc({});
      JournaledRefl(g.bmapstart, s, logged);
      if r == 0 { return; }
      UnusedFree(old(s), g, ino, {}, r);
      Allocate(old(s), g, ino, {}, r, Zero());
      AllocateSame(old(s), g, r);
      AllocateJournaled(old(s), g, r, old(logged));
      forall j | 0 <= j < NINDIRECT ensures GetWord(s[r], j) == 0 { ZeroWords(j); }
      SetDirect(s, g, ino, i, k, r);
      FillSlot(s, s, g, ino, SetAddr(ino, i, k, r), {r}, i, k, r);
      ino := SetAddr(ino, i, k, r);
      assert {r} - {r} == {};
    }

    /** bmap's allocation for an entry of the indirect block. */
    method GrowEntry(i: nat, j: nat) returns (r: nat)
      requires Owners(s, g, ino, {}) && i < |ino| && j < NINDIRECT
      requires ino[i].addrs[NDIRECT] != 0 && At(s, g, ino, i, NDIRECT + 1 + j) == 0
      modifies this`s, this`logged
      ensures var (k, ind) := (NDIRECT + 1 + j, ino[i].addrs[NDIRECT]);
              && Owners(s, g, ino, {}) && OtherSlots(old(s), s, g, ino, ino, i, k) && At(s, g, ino, i, k) == r
              && SameHead(old(s), s, g) && Journaled(g.bmapstart, old(s), old(logged), s, logged)
              && (r == 0 ==> && SameBlocks(old(s), s, g, {}) && logged == old(logged)
                             && forall c: nat :: c < g.size ==> Used(s, g, c))
              && (r != 0 ==> && g.datastart <= r < g.size && !Used(old(s), g, r) && s[r] == Zero() && r != ind
                             && SameBlocks(old(s), s, g, {r, ind})
                             && logged == old(logged) + {r / BPB + g.bmapstart, r, ind})
    {
      hide Used, SetUsed, Owned, Owners, Journaled, OtherSlots, SameHead, SameBlocks, Zero, PutWord;
      assert Shaped(s, g, ino) by { ShapedOwners(s, g, ino); }
      var ind := ino[i].addrs[NDIRECT];
      JournaledRefl(g.bmapstart, s, logged);
      SameRefl(s, g, ino, i, NDIRECT + 1 + j);
      r := Balloc({});
      if r == 0 { return; }
      GrownEntry(old(s), g, ino, i, j, r, old(logged));
      s := s[ind := PutWord(s[ind], j, r)];
      logged := logged + {ind};
    }

    /** bmap for a direct block. */
    method BmapDirect(i: nat, bn: nat) returns (r: nat, ghost bm: set<nat>)
      requires Owners(s, g, ino, {}) && i < |ino| && bn < NDIRECT
      modifies this`s, this`ino, this`logged
      ensures Mapped(g, old(s), old(ino), old(logged), s, ino, logged, i, bn, r, bm)
    {
      hide Used, Owned;
      KeptRefl(s, g, ino);
      r, bm := ino[i].addrs[bn], {};
      if r == 0 {
        r := GrowDirect(i, bn);
        bm := if r == 0 then {} else {r / BPB + g.bmapstart};
        GrowKeeps(old(s), s, g, old(ino), ino, i, bn, if r == 0 then {} else {r});
        OtherSlotsData(old(s), s, g, old(ino), ino, i, bn);
        assert At(s, g, ino, i, NDIRECT) == At(old(s), g, old(ino), i, NDIRECT);
      }
    }

    /** bmap's first half for an indirect block: make sure there is an indirect block. */
    method EnsureIndirect(i: nat, ghost bn: nat) returns (ok: bool, ghost bm: set<nat>)
      requires Owners(s, g, ino, {}) && i < |ino| && NDIRECT <= bn < MAXFILE
      modifies this`s, this`ino, this`logged
      ensures Ensured(g, old(s), old(ino), old(logged), s, ino, logged, i, bn, bm)
      ensures ok <==> ino[i].addrs[NDIRECT] != 0
    {
      hide Used, Owned;
      KeptRefl(s, g, ino);
      ok, bm := true, {};
      if ino[i].addrs[NDIRECT] == 0 {
        var r := GrowDirect(i, NDIRECT);
        GrowKeeps(old(s), s, g, old(ino), ino, i, NDIRECT, if r == 0 then {} else {r});
        OtherSlotsIndirect(old(s), s, g, old(ino), ino, i, bn);
        ok, bm := r != 0, if r == 0 then {} else {r / BPB + g.bmapstart};
      }
    }

    /** bmap's second half: the entry in the indirect block. */
    method BmapEntry(i: nat, bn: nat) returns (r: nat, ghost bm: set<nat>)
      requires Owners(s, g, ino, {}) && i < |ino| && NDIRECT <= bn < MAXFILE && ino[i].addrs[NDIRECT] != 0
      modifies this`s, this`logged
      ensures Mapped(g, old(s), ino, old(logged), s, ino, logged, i, bn, r, bm)
    {
      hide Used, Owned;
      KeptRefl(s, g, ino);
      bm := {};
      var ind := ino[i].addrs[NDIRECT];
      r := GetWord(s[ind], bn - NDIRECT);
      assert r == At(s, g, ino, i, Slot(bn));
      if r == 0 {
        r := GrowEntry(i, bn - NDIRECT);
        bm := if r == 0 then {} else {r / BPB + g.bmapstart};
        assert At(old(s), g, ino, i, NDIRECT) == ind;
        GrowKeeps(old(s), s, g, ino, ino, i, Slot(bn), if r == 0 then {} else {r, ind});
        OtherSlotsData(old(s), s, g, ino, ino, i, bn);
      }
    }

    /** bmap for a block listed in the indirect block. */
    method BmapIndirect(i: nat, bn: nat) returns (r: nat, ghost bm: set<nat>)
      requires Owners(s, g, ino, {}) && i < |ino| && NDIRECT <= bn < MAXFILE
      modifies this`s, this`ino, this`logged
      ensures Mapped(g, old(s), old(ino), old(logged), s, ino, logged, i, bn, r, bm)
    {
      hide Mapped;
      var ok;
      ghost var b1;
      ok, b1 := EnsureIndirect(i, bn);
      if !ok {
        EnsuredFull(g, old(s), old(ino), old(logged), s, ino, logged, i, bn, b1);
        return 0, b1;
      }
      ghost var (s1, ino1, lg1) := (s, ino, logged);
      r, bm := BmapEntry(i, bn);
      EnsuredMapped(g, old(s), old(ino), old(logged), s1, ino1, lg1, s, logged, i, bn, r, b1, bm);
      bm := b1 + bm;
    }

    /** bmap: the address of the bn-th block of inode i, allocated if need be; 0 when full.  False
        when it panics. */
    method Bmap(i: nat, bn: nat) returns (ok: bool, r: nat, ghost bm: set<nat>)
      requires Owners(s, g, ino, {}) && i < |ino|
      modifies this`s, this`ino, this`logged
      ensures ok <==> bn < MAXFILE
      ensures ok ==> Mapped(g, old(s), old(ino), old(logged), s, ino, logged, i, bn, r, bm)
      ensures ok && bn < 12 ==> r == ino[i].addrs[bn]
      ensures ok && bn >= 12 && r != 0 ==>
                0 < ino[i].addrs[12] < g.size && r == GetWord(s[ino[i].addrs[12]], bn - 12)
      ensures bn < 12 && old(ino)[i].addrs[bn] != 0 ==> r == old(ino)[i].addrs[bn]
      ensures 12 <= bn < 268 && old(ino)[i].addrs[12] != 0 ==>
                var e := GetWord(old(s)[old(ino)[i].addrs[12]], bn - 12); e != 0 ==> r == e
      ensures !ok ==> s == old(s) && ino == old(ino) && logged == old(logged)
    {
      if bn < MAXFILE { DataAddrIs(s, g, ino[i], bn); }
      ok := true;
      if bn < NDIRECT {
        r, bm := BmapDirect(i, bn);
      } else if bn - NDIRECT < NINDIRECT {
        r, bm := BmapIndirect(i, bn);
      } else {
        ok, r, bm := false, 0, {};
      }
      if ok { DataAddrIs(s, g, ino[i], bn); }
    }

    // ----- contents

    /** One round of writei: put data at offset off, all within one block; false when the disk is full. */
    method WriteChunk(i: nat, off: nat, data: seq<Byte>) returns (ok: bool, ghost bm: set<nat>)
      requires Owners(s, g, ino, {}) && i < |ino| && off + |data| <= LIMIT && 0 < |data|
      requires off % BSIZE + |data| <= BSIZE
      modifies this`s, this`ino, this`logged
      ensures Owners(s, g, ino, {}) && SameHead(old(s), s, g) && |ino| == |old(ino)|
      ensures Journaled(g.bmapstart, old(s), old(logged), s, logged)
      ensures !ok ==> Chunk(g, old(s), old(ino), s, ino, i, off, []) && forall c: nat :: c < g.size ==> Used(s, g, c)
      ensures ok ==> Chunk(g, old(s), old(ino), s, ino, i, off, data)
      ensures logged <= old(logged) + bm + Nz(DataAddr(s, g, ino[i], off / BSIZE)) + Nz(ino[i].addrs[NDIRECT])
      ensures old(ino)[i].addrs[NDIRECT] != 0 ==> ino[i].addrs[NDIRECT] == old(ino)[i].addrs[NDIRECT]
      ensures |bm| <= (if DataAddr(old(s), g, old(ino)[i], off / BSIZE) != 0 then 0
                       else if old(ino)[i].addrs[NDIRECT] == 0 && ino[i].addrs[NDIRECT] != 0 then 2 else 1)
    {
      hide Used, Owned, Owners, Kept, Chunk, Journaled, OtherData, GetWord, Addr, Slot, Splice;
      var addr;
      ok, addr, bm := Bmap(i, off / BSIZE);
      if addr == 0 {
        ChunkFull(g, old(s), old(ino), s, ino, i, off);
        return false, bm;
      }
      ghost var (s1, ino1, logged1) := (s, ino, logged);
      PutChunk(i, off, data, addr);
      JournaledPut(g.bmapstart, old(s), old(logged), s1, logged1, addr, s[addr]);
      ok := true;
      ChunkOk(g, old(s), old(ino), s1, ino1, s, i, off, data);
    }

    /** The bread, copy and log_write of one round of writei, in block addr. */
    method PutChunk(i: nat, off: nat, data: seq<Byte>, addr: nat)
      requires Owners(s, g, ino, {}) && i < |ino| && off + |data| <= LIMIT && 0 < |data|
      requires off % BSIZE + |data| <= BSIZE && addr == DataAddr(s, g, ino[i], off / BSIZE) != 0
      modifies this`s, this`logged
      ensures Owners(s, g, ino, {}) && DataAddr(s, g, ino[i], off / BSIZE) == addr
      ensures g.Ok() && g.datastart <= addr < g.size == |old(s)| && logged == old(logged) + {addr}
      ensures s == old(s)[addr := Splice(old(s)[addr], off % BSIZE, data)] && SameHead(old(s), s, g)
      ensures forall o :: 0 <= o < 1024 ==>
                s[addr][o] == if off % 1024 <= o < off % 1024 + |data| then data[o - off % 1024] else old(s)[addr][o]
    {
      hide Used, Owned, Owners;
      DataNotIndirect(s, g, ino, i, off / BSIZE);
      SpliceBytes(s, g, ino, i, off, data);
      s := s[addr := Splice(s[addr], off % BSIZE, data)];
      logged := logged + {addr};
    }

    /** The loop of writei. */
    method WriteLoop(i: nat, off0: nat, src: seq<Byte>)
      returns (tot: nat, ghost ds: set<nat>, ghost bs: set<nat>, ghost rounds: nat)
      requires Owners(s, g, ino, {}) && i < |ino| && off0 + |src| <= LIMIT
      modifies this`s, this`ino, this`logged
      ensures tot <= |src|
      ensures Progress(g, old(s), old(ino), old(logged), s, ino, logged, i, off0, src[..tot], ds, bs, rounds)
      ensures tot < |src| ==> g.Ok() && |s| == g.size && forall c: nat :: c < g.size ==> Used(s, g, c)
      ensures rounds > 0 ==> (rounds - 1) * 1024 < off0 % 1024 + |src|
    {
      hide Progress, Used;
      var off := off0;
      tot, ds, bs, rounds := 0, {}, {}, 0;
      ProgressStart(g, s, ino, logged, i, off0);
      while tot < |src|
        invariant tot <= |src| && off == off0 + tot && (rounds == 0 ==> tot == 0)
        invariant Progress(g, old(s), old(ino), old(logged), s, ino, logged, i, off0, src[..tot], ds, bs, rounds)
        invariant rounds > 0 ==> (rounds - 1) * 1024 < off0 % 1024 + |src|
        invariant tot < |src| ==> rounds * 1024 <= off0 % 1024 + tot
        decreases |src| - tot
      {
        var m := if |src| - tot < BSIZE - off % BSIZE then |src| - tot else BSIZE - off % BSIZE;
        var ok;
        ok, ds, bs := WriteRound(i, off, src[tot..tot + m], old(s), old(ino), old(logged),
                                 off0, src[..tot], ds, bs, rounds);
        rounds := rounds + 1;
        if !ok { return; }
        assert src[..tot] + src[tot..tot + m] == src[..tot + m];
        tot, off := tot + m, off + m;
      }
    }

    method WriteRound(i: nat, off: nat, data: seq<Byte>, ghost s0: seq<Block>, ghost ino0: seq<Inode>,
                      ghost logged0: set<nat>, ghost off0: nat, ghost done: seq<Byte>, ghost ds: set<nat>,
                      ghost bs: set<nat>, ghost rounds: nat)
      returns (ok: bool, ghost ds': set<nat>, ghost bs': set<nat>)
      requires Progress(g, s0, ino0, logged0, s, ino, logged, i, off0, done, ds, bs, rounds)
      requires rounds == 0 ==> done == []
      requires off == off0 + |done| && off + |data| <= LIMIT && 0 < |data| && off % BSIZE + |data| <= BSIZE
      modifies this`s, this`ino, this`logged
      ensures Progress(g, s0, ino0, logged0, s, ino, logged,
                       i, off0, if ok then done + data else done, ds', bs', rounds + 1)
      ensures !ok ==> g.Ok() && |s| == g.size && forall c: nat :: c < g.size ==> Used(s, g, c)
    {
      hide Owners, Used, Spent, Nz;
      ShapedOwners(s, g, ino);
      ghost var bm;
      ok, bm := WriteChunk(i, off, data);
      ShapedOwners(s, g, ino);
      ghost var a := DataAddr(s, g, ino[i], off / BSIZE);
      assert done + [] == done;
      ProgressNext(g, s0, ino0, logged0, old(s), old(ino), old(logged), s, ino, logged, i, off0, done,
                   if ok then data else [], ds, bs, rounds, a, bm);
      ds', bs' := ds + Nz(a), bs + bm;
    }

    // ----- inodes

    /** Between operations the file system is sound. */
    ghost predicate Valid()
      reads this
    {
      Sound(g, inodestart, Image(s, ino))
    }

    /** The contents of file i. */
    ghost function File(i: nat): seq<Byte>
      requires Shaped(s, g, ino) && i < |ino|
      reads this
    {
      Bytes(s, g, ino[i])
    }

    /** iupdate */
    method Iupdate(i: nat)
      requires Owners(s, g, ino, {}) && Synced(g, inodestart, s, ino, {i}) && i < |ino|
      modifies this`s, this`logged
      ensures Owners(s, g, ino, {}) && Synced(g, inodestart, s, ino, {})
      ensures forall j: nat :: j < |ino| ==> Unchanged(old(s), s, g, ino[j], ino[j])
      ensures forall c: nat :: c < g.size ==> Used(s, g, c) == Used(old(s), g, c)
      ensures logged == old(logged) + {InodeBlock(inodestart, i)} && SameBlocks(old(s), s, g, {})
      ensures var n := inodestart + i / 16;
              n in logged && n < |s| == |old(s)| && s == old(s)[n := Encode(old(s)[n], i % 16, ino[i])]
      ensures Journaled(inodestart, old(s), old(logged), s, logged)
    {
      hide Owned, Decode, Encode, Owners, Unchanged, Used, Journaled;
      ShapedOwners(s, g, ino);
      var n := InodeBlock(inodestart, i);
      assert InodeOk(g, ino[i]);
      var b := Encode(s[n], i % IPB, ino[i]);
      HeadWrite(s, g, ino, n, b);
      InodeWritten(g, inodestart, s, ino, i);
      JournaledRefl(inodestart, s, logged);
      JournaledPut(inodestart, s, logged, s, logged, n, b);
      s := s[n := b];
      logged := logged + {n};
    }

    lemma SameHeadSynced(s0: seq<Block>, ino0: seq<Inode>, i: nat)
      requires Synced(g, inodestart, s0, ino0, {}) && SameHead(s0, s, g) && |ino| == |ino0|
      requires forall j: nat :: j < |ino| && j != i ==> ino[j] == ino0[j]
      ensures Synced(g, inodestart, s, ino, {i})
    {
    }

    /** writei's last lines: the new size and the inode block. */
    method FinishWrite(i: nat, off: nat, ghost s0: seq<Block>, ghost ino0: seq<Inode>, ghost off0: nat,
                       ghost data: seq<Byte>)
      requires Owners(s, g, ino, {}) && SameHead(s0, s, g) && Chunk(g, s0, ino0, s, ino, i, off0, data)
      requires off == off0 + |data| && off0 <= ino0[i].size && Synced(g, inodestart, s0, ino0, {})
      requires forall j :: 0 <= j < |ino0| ==> Complete(s0, g, ino0[j])
      modifies this`s, this`ino, this`logged
      ensures Valid() && |ino| == |ino0|
      ensures File(i) == Overwritten(Bytes(s0, g, ino0[i]), off0, data)
      ensures forall j: nat :: j < |ino| && j != i ==> File(j) == Bytes(s0, g, ino0[j])
      ensures forall c: nat :: c < g.size ==> Used(s, g, c) == Used(old(s), g, c)
      ensures logged == old(logged) + {InodeBlock(inodestart, i)} && ino[i].addrs == old(ino)[i].addrs
      ensures Journaled(inodestart, old(s), old(logged), s, logged)
    {
      hide Owned, Used, Owners, Decode, SameBlocks, Synced, Bytes, Overwritten;
      ChunkFile(g, s0, ino0, s, ino, i, off0, data);
      ghost var (s1, ip) := (s, ino[i].(size := if off > ino[i].size then off else ino[i].size));
      if off > ino[i].size {
        Resize(s, g, ino, i, off);
        ino := ino[i := ino[i].(size := off)];
      }
      assert ino[i] == ip;
      ShapedOwners(s, g, ino);
      SameHeadSynced(s0, ino0, i);
      Iupdate(i);
      ShapedOwners(s, g, ino);
      UnchangedBytes(s1, s, g, ino[i], ino[i]);
      forall j: nat | j < |ino| && j != i ensures Complete(s, g, ino[j]) && File(j) == Bytes(s0, g, ino0[j]) {
        UnchangedBytes(s0, s1, g, ino0[j], ino[j]);
        UnchangedBytes(s1, s, g, ino[j], ino[j]);
      }
    }

    /** writei of src at off; -1 for a bad range. */
    method Writei(i: nat, off: nat, src: seq<Byte>) returns (tot: int)
      requires Valid() && i < |ino| && off < WORD && |src| < WORD
      modifies this`s, this`ino, this`logged
      ensures Valid() && |ino| == |old(ino)|
      ensures tot == -1 <==> off > old(ino)[i].size || off + |src| >= WORD || off + |src| > LIMIT
      ensures tot == -1 ==> s == old(s) && ino == old(ino) && logged == old(logged)
      ensures tot != -1 ==> 0 <= tot <= |src| && File(i) == Overwritten(old(File(i)), off, src[..tot])
      ensures 0 <= tot < |src| ==> forall c: nat :: c < g.size ==> Used(s, g, c)
      ensures forall j: nat :: j < |ino| && j != i ==> File(j) == old(File(j))
      ensures Journaled(inodestart, old(s), old(logged), s, logged)
      ensures |src| <= 3 * BSIZE ==> |logged - old(logged)| <= 10
    {
      hide Owned, Used, Owners, Decode;
      ShapedOwners(s, g, ino);
      if off > ino[i].size || (off + |src|) % WORD < off { return -1; }
      if off + |src| > MAXFILE * BSIZE { return -1; }
      ghost var ds, bs, rounds;
      tot, ds, bs, rounds := WriteLoop(i, off, src);
      if |src| <= 3 * BSIZE {
        WriteCost(g, old(s), old(ino)[i], off, |src|, old(logged), logged, ino[i].addrs[NDIRECT],
                  ds, bs, rounds, InodeBlock(inodestart, i));
      }
      ghost var (s1, logged1) := (s, logged);
      FinishWrite(i, off + tot, old(s), old(ino), off, src[..tot]);
      JournaledTrans(g.bmapstart, inodestart, old(s), old(logged), s1, logged1, s, logged);
    }

    /** One round of readi.  bmap finds the block, since every block below the size exists. */
    method ReadPiece(i: nat, off: nat, m: nat) returns (piece: seq<Byte>)
      requires Valid() && i < |ino| && 0 < m && off + m <= ino[i].size && off % BSIZE + m <= BSIZE
      modifies this`s, this`ino, this`logged
      ensures s == old(s) && ino == old(ino) && logged == old(logged)
      ensures piece == File(i)[off..off + m]
    {
      hide Owned, Used, Owners, Decode, Synced;
      ShapedOwners(s, g, ino);
      PieceOk(s, g, ino[i], off, m);
      ghost var bm;
      var ok, addr;
      ok, addr, bm := Bmap(i, off / BSIZE);
      piece := s[addr][off % BSIZE..off % BSIZE + m];
    }

    /** The loop of readi. */
    method ReadLoop(i: nat, off0: nat, n: nat) returns (dst: seq<Byte>)
      requires Valid() && i < |ino| && off0 + n <= ino[i].size
      modifies this`s, this`ino, this`logged
      ensures s == old(s) && ino == old(ino) && logged == old(logged)
      ensures dst == File(i)[off0..off0 + n]
    {
      hide Owned, Used, Owners, Decode, Synced, Complete, ByteAt;
      ShapedOwners(s, g, ino);
      dst := [];
      var off := off0;
      ghost var f := File(i);
      while |dst| < n
        invariant |dst| <= n && off == off0 + |dst| && s == old(s) && ino == old(ino) && logged == old(logged)
        invariant dst == f[off0..off]
        decreases n - |dst|
      {
        var m := if n - |dst| < BSIZE - off % BSIZE then n - |dst| else BSIZE - off % BSIZE;
        var piece := ReadPiece(i, off, m);
        SliceJoin(f, off0, off, off + m);
        dst := dst + piece;
        off := off + m;
      }
    }

    /** readi: the clamped slice of the file. */
    method Readi(i: nat, off: nat, n0: nat) returns (dst: seq<Byte>)
      requires Valid() && i < |ino| && off < WORD && n0 < WORD
      modifies this`s, this`ino, this`logged
      ensures s == old(s) && ino == old(ino) && logged == old(logged)
      ensures dst == if off > ino[i].size || off + n0 >= WORD then []
                     else File(i)[off..if off + n0 > ino[i].size then ino[i].size else off + n0]
    {
      hide Owned, Used, Owners, Decode, Synced, Complete, ByteAt;
      ShapedOwners(s, g, ino);
      dst := [];
      var n := n0;
      if off > ino[i].size || (off + n) % WORD < off { return; }
      if off + n > ino[i].size {
        n := ino[i].size - off;
      }
      dst := ReadLoop(i, off, n);
    }

    /** The bitmap has no free block. */
    ghost predicate Full(d: seq<Block>)
      requires g.Ok() && |d| == g.size
    {
      forall c: nat :: c < g.size ==> Used(d, g, c)
    }

    /** One transaction of filewrite: tx holds every block that changed or was logged, and it
        holds at most ten. */
    method WriteOp(i: nat, off: nat, chunk: seq<Byte>) returns (r: int, ghost tx: set<nat>)
      requires Valid() && i < |ino| && off < WORD && |chunk| <= 3 * BSIZE
      modifies this`s, this`ino, this`logged
      ensures Valid() && |ino| == |old(ino)|
      ensures |tx| <= 10 && Transaction(g, inodestart, old(Image(s, ino)), Image(s, ino), tx)
      ensures r == -1 <==> off > |old(File(i))| || off + |chunk| > LIMIT
      ensures r == -1 ==> s == old(s) && ino == old(ino)
      ensures r != -1 ==> 0 <= r <= |chunk| && File(i) == Overwritten(old(File(i)), off, chunk[..r])
      ensures 0 <= r < |chunk| ==> Full(s)
      ensures forall j: nat :: j < |ino| && j != i ==> File(j) == old(File(j))
    {
      logged := {};
      r := Writei(i, off, chunk);
      assert logged - {} == logged;
      tx := logged;
    }

    /** filewrite on an inode, at file offset off0: one transaction per chunk.  `images` are the
        states between transactions and `txs` the blocks each transaction changed or logged.  It stops
        short only on a full disk, beyond the end of the file or at a chunk that passes the limit. */
    method Filewrite(i: nat, off0: nat, src: seq<Byte>)
      returns (ret: int, off: nat, ghost images: seq<Image>, ghost txs: seq<set<nat>>)
      requires Valid() && i < |ino| && off0 < WORD && |src| < 0x8000_0000
      modifies this`s, this`ino, this`logged
      ensures Valid() && |ino| == |old(ino)|
      ensures off0 <= off <= off0 + |src| && Wrote(old(File(i)), File(i), off0, src[..off - off0])
      ensures off > off0 ==> off0 <= |old(File(i))| && off <= LIMIT
      ensures off < off0 + |src| ==>
                || Full(s) || off0 > |old(File(i))|
                || (off0 + |src| > LIMIT && off + 3072 > LIMIT)
      ensures off == off0 + |src| ==> |txs| == (|src| + 3071) / 3072
      ensures ret == if off == off0 + |src| then |src| else -1
      ensures forall j: nat :: j < |ino| && j != i ==> File(j) == old(File(j))
      ensures |images| == |txs| + 1 && images[0] == old(Image(s, ino)) && images[|txs|] == Image(s, ino)
      ensures forall k :: 0 <= k < |txs| ==>
                |txs[k]| <= 10 && Transaction(g, inodestart, images[k], images[k + 1], txs[k])
    {
      hide Valid, Bytes, Overwritten, Wrote, Transaction, Full;
      ValidShaped();
      ghost var f := File(i);
      WroteNothing(f, off0);
      var max := (10 - 1 - 1 - 2) / 2 * BSIZE;
      var done := 0;
      off, images, txs := off0, [Image(s, ino)], [];
      while done < |src|
        invariant 0 <= done <= |src| && off == off0 + done && off < WORD && |ino| == |old(ino)|
        invariant Valid() && Shaped(s, g, ino)
        invariant Wrote(f, File(i), off0, src[..done]) && (done == 0 ==> File(i) == f)
        invariant done > 0 ==> off0 <= |f| && off <= |File(i)| && off <= LIMIT
        invariant done == (if |txs| * 3072 < |src| then |txs| * 3072 else |src|)
        invariant |txs| > 0 ==> (|txs| - 1) * 3072 < |src|
        invariant forall j: nat :: j < |ino| && j != i ==> File(j) == old(File(j))
        invariant |images| == |txs| + 1 && images[0] == old(Image(s, ino)) && images[|txs|] == Image(s, ino)
        invariant forall k :: 0 <= k < |txs| ==>
                    |txs[k]| <= 10 && Transaction(g, inodestart, images[k], images[k + 1], txs[k])
      {
        var n1 := if |src| - done > max then max else |src| - done;
        ghost var (x, tx) := (File(i), {});
        var r;
        r, tx := WriteOp(i, off, src[done..done + n1]);
        ValidShaped();
        images, txs := images + [Image(s, ino)], txs + [tx];
        WroteMore(f, x, File(i), off0, src, done, n1, r);
        if r >= 0 { OverwrittenJoin(x, off, src[done..done + n1][..r], []); }
        if r > 0 { off := off + r; }
        if r != n1 { break; }
        done := done + r;
      }
      ret := if done == |src| then |src| else -1;
    }

    lemma ValidShaped()
      requires Valid()
      ensures Shaped(s, g, ino)
    {
    }

    // ----- truncation

    /** The state while itrunc runs: only the bitmap and inode i's addresses have changed. */
    ghost predicate Truncating(s0: seq<Block>, ino0: seq<Inode>, logged0: set<nat>, i: nat)
      reads this
    {
      && Shaped(s, g, ino) && SameBlocks(s0, s, g, {}) && SameHead(s0, s, g)
      && Journaled(g.bmapstart, s0, logged0, s, logged) && OnlyBitmap(g, logged0, logged)
      && |ino| == |ino0| && i < |ino| && ino[i].size == ino0[i].size
      && forall j :: 0 <= j < |ino| && j != i ==> ino[j] == ino0[j]
    }

    /** bfree of a used data block, as itrunc does it: it does not panic. */
    method FreeOne(b: nat, ghost s0: seq<Block>, ghost ino0: seq<Inode>, ghost logged0: set<nat>, ghost i: nat)
      requires Truncating(s0, ino0, logged0, i) && b < g.size && Used(s, g, b)
      modifies this`s, this`logged
      ensures Truncating(s0, ino0, logged0, i) && s == SetUsed(old(s), g, b, false)
    {
      forall c: nat | c < g.size
        ensures c >= g.datastart || c < g.bmapstart ==> SetUsed(s, g, b, false)[c] == s[c]
      {
        UsedSet(s, g, b, false, c);
      }
      var ok := Bfree(b);
      assert ok;
      assert b / BPB <= (g.size - 1) / BPB;
      JournaledTrans(g.bmapstart, g.bmapstart, s0, logged0, old(s), old(logged), s, logged);
    }

    /** itrunc's first loop. */
    method TruncDirect(i: nat)
      requires Owners(s, g, ino, {}) && i < |ino|
      modifies this`s, this`ino, this`logged
      ensures Owners(s, g, ino, {}) && Truncating(old(s), old(ino), old(logged), i)
      ensures ino[i].addrs[NDIRECT] == old(ino)[i].addrs[NDIRECT]
      ensures forall k :: 0 <= k < NDIRECT ==> ino[i].addrs[k] == 0
    {
      hide Owners, Used, SetUsed, Owned;
      ShapedOwners(s, g, ino);
      var k := 0;
      while k < NDIRECT
        invariant 0 <= k <= NDIRECT && Owners(s, g, ino, {}) && Truncating(old(s), old(ino), old(logged), i)
        invariant ino[i].addrs[NDIRECT] == old(ino)[i].addrs[NDIRECT]
        invariant forall l :: 0 <= l < k ==> ino[i].addrs[l] == 0
      {
        if ino[i].addrs[k] != 0 {
          FreeDirect(s, g, ino, i, k);
          FreeOne(ino[i].addrs[k], old(s), old(ino), old(logged), i);
          ShapedOwners(s, g, SetAddr(ino, i, k, 0));
          ino := SetAddr(ino, i, k, 0);
        }
        k := k + 1;
      }
    }

    /** itrunc's second half: the blocks the indirect block lists, then the indirect block. */
    method TruncIndirect(i: nat)
      requires Owners(s, g, ino, {}) && i < |ino|
      modifies this`s, this`ino, this`logged
      ensures Owners(s, g, ino, {}) && Truncating(old(s), old(ino), old(logged), i)
      ensures ino[i].addrs == old(ino)[i].addrs[NDIRECT := 0]
    {
      hide Owners, Used, SetUsed, Owned, Cleared;
      ShapedOwners(s, g, ino);
      if ino[i].addrs[NDIRECT] == 0 { return; }
      var ind := ino[i].addrs[NDIRECT];
      var a := s[ind];
      var j := 0;
      ViewNothing(s, g, ino, i);
      while j < NINDIRECT
        invariant 0 <= j <= NINDIRECT && ino == old(ino) && Truncating(old(s), old(ino), old(logged), i) && s[ind] == a
        invariant Owners(View(s, g, ino, i, j), g, ino, {})
      {
        FreeListed(s, g, ino, i, j);
        if GetWord(a, j) != 0 {
          FreeOne(GetWord(a, j), old(s), old(ino), old(logged), i);
        }
        j := j + 1;
      }
      FreeIndirect(s, g, ino, i);
      FreeOne(ind, old(s), old(ino), old(logged), i);
      ShapedOwners(s, g, SetAddr(ino, i, NDIRECT, 0));
      ino := SetAddr(ino, i, NDIRECT, 0);
    }

    /** itrunc: the file is empty, exactly its blocks are free, and nothing panics. */
    method Itrunc(i: nat)
      requires Valid() && i < |ino|
      modifies this`s, this`ino, this`logged
      ensures Valid() && |ino| == |old(ino)| && File(i) == []
      ensures forall k: nat :: k < SLOTS ==> At(s, g, ino, i, k) == 0
      ensures forall c: nat :: c < g.size ==>
                (Used(s, g, c) <==>
                   Used(old(s), g, c) && (c == 0 || forall k: nat :: k < SLOTS ==> At(old(s), g, old(ino), i, k) != c))
      ensures forall j: nat :: j < |ino| && j != i ==> File(j) == old(File(j))
      ensures Journaled(inodestart, old(s), old(logged), s, logged)
      ensures |logged - old(logged)| <= (g.size - 1) / BPB + 2
    {
      hide Owners, Used, Owned, Decode, SetUsed, OnlyBitmap;
      TruncDirect(i);
      ghost var (s2, logged2) := (s, logged);
      TruncIndirect(i);
      JournaledTrans(g.bmapstart, g.bmapstart, old(s), old(logged), s2, logged2, s, logged);
      ghost var logged1 := logged;
      Resize(s, g, ino, i, 0);
      ghost var (s1, ino1) := (s, ino);
      ino := ino[i := ino[i].(size := 0)];
      ShapedOwners(s, g, ino);
      SameHeadSynced(old(s), old(ino), i);
      Iupdate(i);
      ShapedOwners(s, g, ino);
      TruncDone(old(s), old(ino), s1, i);
      JournaledTrans(g.bmapstart, inodestart, old(s), old(logged), s1, logged1, s, logged);
      BitmapTrans(g, old(logged), logged2, logged1);
      BitmapCost(g, old(logged), logged1, logged, InodeBlock(inodestart, i));
    }

    /** One transaction that truncates a file: tx holds every block that changed or was logged, the inode's
        block and at most all of the bitmap. */
    method TruncOp(i: nat) returns (ghost tx: set<nat>)
      requires Valid() && i < |ino|
      modifies this`s, this`ino, this`logged
      ensures Valid() && |ino| == |old(ino)| && File(i) == []
      ensures |tx| <= (g.size - 1) / BPB + 2
      ensures Transaction(g, inodestart, old(Image(s, ino)), Image(s, ino), tx)
      ensures forall j: nat :: j < |ino| && j != i ==> File(j) == old(File(j))
    {
      logged := {};
      Itrunc(i);
      assert logged - {} == logged;
      tx := logged;
    }

    lemma TruncDone(s0: seq<Block>, ino0: seq<Inode>, s1: seq<Block>, i: nat)
      requires Owners(s0, g, ino0, {}) && Owners(s, g, ino, {}) && |ino| == |ino0| && i < |ino|
      requires |s1| == g.size && SameBlocks(s0, s1, g, {}) && SameBlocks(s1, s, g, {})
      requires ino[i].size == 0 && (forall k :: 0 <= k <= NDIRECT ==> ino[i].addrs[k] == 0)
      requires forall j :: 0 <= j < |ino| && j != i ==> ino[j] == ino0[j]
      requires forall j :: 0 <= j < |ino| ==> Complete(s0, g, ino0[j])
      ensures forall k: nat :: k < SLOTS ==> At(s, g, ino, i, k) == 0
      ensures forall c: nat :: c < g.size ==>
                (Used(s, g, c) <==>
                   Used(s0, g, c) && (c == 0 || forall k: nat :: k < SLOTS ==> At(s0, g, ino0, i, k) != c))
      ensures forall j: nat :: j < |ino| && j != i ==> Bytes(s, g, ino[j]) == Bytes(s0, g, ino0[j])
      ensures forall j :: 0 <= j < |ino| ==> Complete(s, g, ino[j])
      ensures Bytes(s, g, ino[i]) == []
    {
      hide Owners, Used, Owned;
      ShapedOwners(s0, g, ino0);
      ShapedOwners(s, g, ino);
      forall j: nat | j < |ino| && j != i
        ensures forall k: nat :: k < SLOTS ==> At(s, g, ino, j, k) == At(s0, g, ino0, j, k)
        ensures Complete(s, g, ino[j]) && Bytes(s, g, ino[j]) == Bytes(s0, g, ino0[j])
      {
        SameSlots(s0, s, g, ino0, ino, j);
        SameBlocksUnchanged(s0, s, g, ino0, j);
        UnchangedBytes(s0, s, g, ino0[j], ino[j]);
      }
      forall c: nat | c < g.size
        ensures Used(s, g, c) <==>
                Used(s0, g, c) && (c == 0 || forall k: nat :: k < SLOTS ==> At(s0, g, ino0, i, k) != c)
      {
        TruncExact(s0, s, g, ino0, ino, i, c);
      }
    }
  }
}
