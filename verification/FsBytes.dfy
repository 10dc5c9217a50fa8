/** The contents of inodes as bytes. */
module FsBytes {
  import opened Blocks
  import opened Common
  import opened FsOwner
  import opened FsMap

  const LIMIT := MAXFILE * BSIZE

  predicate Present(s: seq<Block>, g: Geo, ip: Inode, o: nat)
    requires g.Ok() && |s| == g.size && InodeOk(g, ip) && o < LIMIT
  {
    0 < DataAddr(s, g, ip, o / BSIZE) < g.size
  }

  /** Byte o of the inode's contents. */
  function ByteAt(s: seq<Block>, g: Geo, ip: Inode, o: nat): Byte
    requires g.Ok() && |s| == g.size && InodeOk(g, ip) && o < LIMIT
  {
    if Present(s, g, ip, o) then s[DataAddr(s, g, ip, o / BSIZE)][o % BSIZE] else 0
  }

  /** Byte o of the inode's contents is byte o % 1024 of the block listed in entry o / 1024. */
  lemma ByteIs(s: seq<Block>, g: Geo, ip: Inode, o: nat)
    requires g.Ok() && |s| == g.size && InodeOk(g, ip) && o < LIMIT && Present(s, g, ip, o)
    ensures var bn := o / 1024;
            if bn < 12 then 0 < ip.addrs[bn] < |s| && ByteAt(s, g, ip, o) == s[ip.addrs[bn]][o % 1024]
            else && 0 < ip.addrs[12] < |s| && 0 < GetWord(s[ip.addrs[12]], bn - 12) < |s|
                 && ByteAt(s, g, ip, o) == s[GetWord(s[ip.addrs[12]], bn - 12)][o % 1024]
  {
    DataAddrIs(s, g, ip, o / 1024);
  }

  /** Every block below the file's size is allocated. */
  predicate Complete(s: seq<Block>, g: Geo, ip: Inode)
    requires g.Ok() && |s| == g.size && InodeOk(g, ip)
  {
    forall o: nat :: o < ip.size ==> Present(s, g, ip, o)
  }

  /** The file: its bytes below its size. */
  function Bytes(s: seq<Block>, g: Geo, ip: Inode): (r: seq<Byte>)
    requires g.Ok() && |s| == g.size && InodeOk(g, ip)
    ensures |r| == ip.size
  {
    seq(ip.size, o requires 0 <= o < ip.size => ByteAt(s, g, ip, o))
  }

  /** All bytes that were present stay present and equal. */
  predicate Unchanged(s: seq<Block>, s': seq<Block>, g: Geo, ip: Inode, ip': Inode)
    requires g.Ok() && |s| == |s'| == g.size && InodeOk(g, ip) && InodeOk(g, ip')
  {
    ip'.size == ip.size &&
    forall o: nat :: o < LIMIT && Present(s, g, ip, o) ==>
      Present(s', g, ip', o) && ByteAt(s', g, ip', o) == ByteAt(s, g, ip, o)
  }

  lemma KeptUnchanged(s: seq<Block>, s': seq<Block>, g: Geo, ino: seq<Inode>, ino': seq<Inode>, j: nat)
    requires Kept(s, s', g, ino, ino') && j < |ino|
    ensures Unchanged(s, s', g, ino[j], ino'[j])
  {
  }

  lemma UnchangedBytes(s: seq<Block>, s': seq<Block>, g: Geo, ip: Inode, ip': Inode)
    requires g.Ok() && |s| == |s'| == g.size && InodeOk(g, ip) && InodeOk(g, ip')
    requires Unchanged(s, s', g, ip, ip') && Complete(s, g, ip)
    ensures Complete(s', g, ip') && Bytes(s', g, ip') == Bytes(s, g, ip)
  {
  }

  function Splice(b: Block, at: nat, data: seq<Byte>): (r: Block)
    requires at + |data| <= BSIZE
  {
    b[..at] + data + b[at + |data|..]
  }

  /** A data block is not an indirect block, so writing it changes no address. */
  lemma DataNotIndirect(s: seq<Block>, g: Geo, ino: seq<Inode>, i: nat, bn: nat)
    requires Owners(s, g, ino, {}) && i < |ino| && bn < MAXFILE && DataAddr(s, g, ino[i], bn) != 0
    ensures g.Ok() && |s| == g.size
    ensures var a := DataAddr(s, g, ino[i], bn); g.datastart <= a < g.size && NotIndirect(g, ino, a)
  {
    var a := At(s, g, ino, i, Slot(bn));
    forall j | 0 <= j < |ino| ensures ino[j].addrs[NDIRECT] != a { assert At(s, g, ino, j, NDIRECT) != a; }
  }

  /** Overwriting part of one data block changes exactly those bytes of that file. */
  lemma SpliceBytes(s: seq<Block>, g: Geo, ino: seq<Inode>, i: nat, off: nat, data: seq<Byte>)
    requires Owners(s, g, ino, {}) && i < |ino| && off + |data| <= LIMIT && off < LIMIT
    requires off % BSIZE + |data| <= BSIZE && DataAddr(s, g, ino[i], off / BSIZE) != 0
    ensures DataAddr(s, g, ino[i], off / BSIZE) < g.size
    ensures var a := DataAddr(s, g, ino[i], off / BSIZE);
            var s' := s[a := Splice(s[a], off % BSIZE, data)];
            && Owners(s', g, ino, {})
            && (forall j: nat, bn: nat :: j < |ino| && bn < MAXFILE ==>
                  DataAddr(s', g, ino[j], bn) == DataAddr(s, g, ino[j], bn))
            && (forall j: nat, o: nat :: j < |ino| && o < LIMIT && Present(s, g, ino[j], o) ==>
                  && Present(s', g, ino[j], o)
                  && ByteAt(s', g, ino[j], o) ==
                     if j == i && off <= o < off + |data| then data[o - off] else ByteAt(s, g, ino[j], o))
  {
    hide Used, Owned;
    DataNotIndirect(s, g, ino, i, off / BSIZE);
    var a := DataAddr(s, g, ino[i], off / BSIZE);
    var x := Splice(s[a], off % BSIZE, data);
    var s' := s[a := x];
    WriteData(s, g, ino, {}, a, x);
    forall j: nat, bn: nat | j < |ino| && bn < MAXFILE
      ensures DataAddr(s', g, ino[j], bn) == DataAddr(s, g, ino[j], bn)
      ensures (j != i || bn != off / BSIZE) && DataAddr(s, g, ino[j], bn) != 0 ==> DataAddr(s, g, ino[j], bn) != a
    {
      assert At(s', g, ino, j, Slot(bn)) == At(s, g, ino, j, Slot(bn));
      assert a == At(s, g, ino, i, Slot(off / BSIZE));
    }
    forall j: nat, o: nat | j < |ino| && o < LIMIT && Present(s, g, ino[j], o)
      ensures Present(s', g, ino[j], o)
      ensures ByteAt(s', g, ino[j], o) ==
              if j == i && off <= o < off + |data| then data[o - off] else ByteAt(s, g, ino[j], o)
    {
      assert DataAddr(s', g, ino[j], o / BSIZE) == DataAddr(s, g, ino[j], o / BSIZE);
      if j == i && o / BSIZE == off / BSIZE { InSplice(s[a], off, data, o); }
    }
  }

  lemma InSplice(b: Block, off: nat, data: seq<Byte>, o: nat)
    requires off % BSIZE + |data| <= BSIZE && o / BSIZE == off / BSIZE
    ensures Splice(b, off % BSIZE, data)[o % BSIZE] == if off <= o < off + |data| then data[o - off] else b[o % BSIZE]
  {
  }

  /** Writing data at off in file i: these bytes are present and hold the data, every byte that
      was present elsewhere keeps its value, and no other file's addresses change. */
  predicate Chunk(g: Geo, s0: seq<Block>, ino0: seq<Inode>, s: seq<Block>, ino: seq<Inode>, i: nat, off: nat,
                  data: seq<Byte>)
  {
    && Shaped(s0, g, ino0) && Shaped(s, g, ino) && |ino| == |ino0| && i < |ino| && off + |data| <= LIMIT
    && ino[i].size == ino0[i].size
    && (forall j: nat :: j < |ino| && j != i ==> ino[j] == ino0[j])
    && (forall j: nat :: j < |ino| && j != i ==> Unchanged(s0, s, g, ino0[j], ino[j]))
    && (forall bn: nat :: bn < MAXFILE && off + |data| <= bn * BSIZE ==>
          DataAddr(s, g, ino[i], bn) == DataAddr(s0, g, ino0[i], bn))
    && forall o: nat :: o < LIMIT && (Present(s0, g, ino0[i], o) || off <= o < off + |data|) ==>
         && Present(s, g, ino[i], o)
         && ByteAt(s, g, ino[i], o) == if off <= o < off + |data| then data[o - off] else ByteAt(s0, g, ino0[i], o)
  }

  /** bmap, then the copy into the block. */
  lemma ChunkOk(g: Geo, s0: seq<Block>, ino0: seq<Inode>, s1: seq<Block>, ino1: seq<Inode>, s: seq<Block>, i: nat,
                off: nat, data: seq<Byte>)
    requires Owners(s1, g, ino1, {}) && Kept(s0, s1, g, ino0, ino1) && OtherData(s0, s1, g, ino0, ino1, i, off / BSIZE)
    requires i < |ino1| && off + |data| <= LIMIT && 0 < |data| && off % BSIZE + |data| <= BSIZE
    requires var a := DataAddr(s1, g, ino1[i], off / BSIZE);
             a != 0 && a < g.size && s == s1[a := Splice(s1[a], off % BSIZE, data)]
    ensures Chunk(g, s0, ino0, s, ino1, i, off, data)
  {
    hide Used, Owned, Owners, Splice;
    SpliceBytes(s1, g, ino1, i, off, data);
    assert Shaped(s, g, ino1) by { ShapedOwners(s, g, ino1); }
    forall j: nat | j < |ino1| ensures Unchanged(s0, s1, g, ino0[j], ino1[j]) {
      KeptUnchanged(s0, s1, g, ino0, ino1, j);
    }
    forall o: nat | off <= o < off + |data| ensures Present(s1, g, ino1[i], o) {
      assert o / BSIZE == off / BSIZE;
    }
  }

  /** Two adjacent writes are one. */
  lemma ChunkJoin(g: Geo, s0: seq<Block>, ino0: seq<Inode>, s1: seq<Block>, ino1: seq<Inode>, s: seq<Block>,
                  ino: seq<Inode>, i: nat, off: nat, a: seq<Byte>, b: seq<Byte>)
    requires Chunk(g, s0, ino0, s1, ino1, i, off, a) && Chunk(g, s1, ino1, s, ino, i, off + |a|, b)
    ensures Chunk(g, s0, ino0, s, ino, i, off, a + b)
  {
  }

  /** A bmap that found the disk full has written nothing. */
  lemma ChunkFull(g: Geo, s0: seq<Block>, ino0: seq<Inode>, s: seq<Block>, ino: seq<Inode>, i: nat, off: nat)
    requires Kept(s0, s, g, ino0, ino) && OtherData(s0, s, g, ino0, ino, i, off / BSIZE) && i < |ino| && off < LIMIT
    requires DataAddr(s, g, ino[i], off / BSIZE) == 0
    ensures Chunk(g, s0, ino0, s, ino, i, off, [])
  {
  }

  /** The file after data has been written at off, which is at most its length. */
  function Overwritten(f: seq<Byte>, off: nat, data: seq<Byte>): seq<Byte>
    requires off <= |f|
  {
    f[..off] + data + (if off + |data| <= |f| then f[off + |data|..] else [])
  }

  /** writei's new size and the chunk it wrote make the new file. */
  lemma ChunkFile(g: Geo, s0: seq<Block>, ino0: seq<Inode>, s: seq<Block>, ino: seq<Inode>, i: nat, off: nat,
                  data: seq<Byte>)
    requires Chunk(g, s0, ino0, s, ino, i, off, data) && Complete(s0, g, ino0[i]) && off <= ino0[i].size
    ensures var ip := ino[i].(size := if off + |data| > ino[i].size then off + |data| else ino[i].size);
            && InodeOk(g, ip) && Complete(s, g, ip)
            && Bytes(s, g, ip) == Overwritten(Bytes(s0, g, ino0[i]), off, data)
  {
    var ip := ino[i].(size := if off + |data| > ino[i].size then off + |data| else ino[i].size);
    forall o: nat | o < LIMIT
      ensures Present(s, g, ip, o) == Present(s, g, ino[i], o) && ByteAt(s, g, ip, o) == ByteAt(s, g, ino[i], o)
    {
    }
  }

  /** A block before the bitmap holds no address, no bitmap bit and no file contents. */
  lemma HeadWrite(s: seq<Block>, g: Geo, ino: seq<Inode>, n: nat, x: Block)
    requires Owners(s, g, ino, {}) && n < g.bmapstart && n < g.size
    ensures Owners(s[n := x], g, ino, {}) && SameBlocks(s, s[n := x], g, {})
    ensures forall j: nat :: j < |ino| ==> Unchanged(s, s[n := x], g, ino[j], ino[j])
    ensures forall c: nat :: c < g.size ==> Used(s[n := x], g, c) == Used(s, g, c)
  {
    hide Owned;
    var s' := s[n := x];
    assert forall c: nat :: c < g.size ==> Used(s', g, c) == Used(s, g, c);
    assert forall i: nat, k: nat :: i < |ino| && k < SLOTS ==> At(s', g, ino, i, k) == At(s, g, ino, i, k);
    OwnedSame(s, s', g, ino);
    assert Kept(s, s', g, ino, ino) by {
      forall j: nat, bn: nat | j < |ino| && bn < MAXFILE && DataAddr(s, g, ino[j], bn) != 0
        ensures DataAddr(s', g, ino[j], bn) == DataAddr(s, g, ino[j], bn) < g.size
        ensures s'[DataAddr(s, g, ino[j], bn)] == s[DataAddr(s, g, ino[j], bn)]
      {
        assert At(s', g, ino, j, Slot(bn)) == At(s, g, ino, j, Slot(bn));
      }
    }
    forall j: nat | j < |ino| ensures Unchanged(s, s', g, ino[j], ino[j]) { KeptUnchanged(s, s', g, ino, ino, j); }
  }

  /** A new size changes no address. */
  lemma Resize(s: seq<Block>, g: Geo, ino: seq<Inode>, i: nat, size: nat)
    requires Owners(s, g, ino, {}) && i < |ino| && size <= LIMIT
    ensures Owners(s, g, ino[i := ino[i].(size := size)], {})
  {
    hide Used, Owned;
    var ino' := ino[i := ino[i].(size := size)];
    assert forall j: nat, k: nat :: j < |ino| && k < SLOTS ==> At(s, g, ino', j, k) == At(s, g, ino, j, k);
    forall b: nat | Owned(s, g, ino, b) ensures Owned(s, g, ino', b) { ResizeOwned(s, g, ino, i, size, b); }
  }

  lemma ResizeOwned(s: seq<Block>, g: Geo, ino: seq<Inode>, i: nat, size: nat, b: nat)
    requires Shaped(s, g, ino) && i < |ino| && size <= LIMIT && Owned(s, g, ino, b)
    ensures Owned(s, g, ino[i := ino[i].(size := size)], b)
  {
    var j: nat, k: nat :| j < |ino| && k < SLOTS && At(s, g, ino, j, k) == b;
    assert At(s, g, ino[i := ino[i].(size := size)], j, k) == b;
  }

  /** The state of a write to file i from off0 after `done` has been written in some rounds. */
  predicate Progress(g: Geo, s0: seq<Block>, ino0: seq<Inode>, logged0: set<nat>, s: seq<Block>, ino: seq<Inode>,
                     logged: set<nat>, i: nat, off0: nat, done: seq<Byte>, ds: set<nat>, bs: set<nat>, rounds: nat)
  {
    && Owners(s, g, ino, {}) && SameHead(s0, s, g) && Chunk(g, s0, ino0, s, ino, i, off0, done)
    && Journaled(g.bmapstart, s0, logged0, s, logged)
    && (rounds == 0 ==> s == s0 && ino == ino0)
    && Spent(logged0, logged, ino0[i].addrs[NDIRECT], ino[i].addrs[NDIRECT], ds, bs, rounds,
             First(g, s0, ino0[i], off0))
  }

  /** 1 if the block at offset off exists. */
  function First(g: Geo, s: seq<Block>, ip: Inode, off: nat): nat
    requires g.Ok() && |s| == g.size && InodeOk(g, ip)
  {
    if off < LIMIT && DataAddr(s, g, ip, off / BSIZE) != 0 then 1 else 0
  }

  lemma ProgressStart(g: Geo, s: seq<Block>, ino: seq<Inode>, logged: set<nat>, i: nat, off: nat)
    requires Owners(s, g, ino, {}) && i < |ino| && off <= LIMIT
    ensures Progress(g, s, ino, logged, s, ino, logged, i, off, [], {}, {}, 0)
  {
  }

  /** One more round: data (none if the disk was full) after `done`. */
  lemma ProgressNext(g: Geo, s0: seq<Block>, ino0: seq<Inode>, logged0: set<nat>, s1: seq<Block>, ino1: seq<Inode>,
                     logged1: set<nat>, s: seq<Block>, ino: seq<Inode>, logged: set<nat>,
                     i: nat, off0: nat, done: seq<Byte>, data: seq<Byte>, ds: set<nat>, bs: set<nat>, rounds: nat,
                     a: nat, bm: set<nat>)
    requires Progress(g, s0, ino0, logged0, s1, ino1, logged1, i, off0, done, ds, bs, rounds)
    requires Owners(s, g, ino, {}) && SameHead(s1, s, g) && Chunk(g, s1, ino1, s, ino, i, off0 + |done|, data)
    requires Journaled(g.bmapstart, s1, logged1, s, logged)
    requires off0 + |done| < LIMIT && (rounds == 0 ==> done == [])
    requires logged <= logged1 + bm + Nz(a) + Nz(ino[i].addrs[NDIRECT])
    requires ino1[i].addrs[NDIRECT] != 0 ==> ino[i].addrs[NDIRECT] == ino1[i].addrs[NDIRECT]
    requires |bm| <= (if DataAddr(s1, g, ino1[i], (off0 + |done|) / BSIZE) != 0 then 0
                      else if ino1[i].addrs[NDIRECT] == 0 && ino[i].addrs[NDIRECT] != 0 then 2 else 1)
    ensures Progress(g, s0, ino0, logged0, s, ino, logged, i, off0, done + data, ds + Nz(a), bs + bm, rounds + 1)
  {
    hide Owners, Spent, Nz, Used, Owned;
    ChunkJoin(g, s0, ino0, s1, ino1, s, ino, i, off0, done, data);
    SpentNext(logged0, logged1, logged, ino0[i].addrs[NDIRECT], ino1[i].addrs[NDIRECT], ino[i].addrs[NDIRECT],
              ds, bs, rounds, First(g, s0, ino0[i], off0), a, bm,
              DataAddr(s1, g, ino1[i], (off0 + |done|) / BSIZE) != 0);
  }

  /** A write of at most three blocks' length logs at most ten blocks, the inode block included. */
  lemma WriteCost(g: Geo, s0: seq<Block>, ip: Inode, off: nat, n: nat, logged0: set<nat>, logged: set<nat>,
                  ind: nat, ds: set<nat>, bs: set<nat>, rounds: nat, iblock: nat)
    requires g.Ok() && |s0| == g.size && InodeOk(g, ip) && Complete(s0, g, ip) && off <= ip.size && off + n <= LIMIT
    requires Spent(logged0, logged, ip.addrs[NDIRECT], ind, ds, bs, rounds, First(g, s0, ip, off))
    requires n <= 3 * BSIZE && (rounds > 0 ==> (rounds - 1) * 1024 < off % 1024 + n)
    ensures |logged + {iblock} - logged0| <= 10
  {
    hide Used, DataAddr, First, Complete, InodeOk, Nz;
    if off % 1024 != 0 { FirstPresent(g, s0, ip, off); }
    var all := ds + bs + Nz(ind) + {iblock};
    UnionSize(ds, bs, Nz(ind), iblock);
    SubsetSize(logged + {iblock} - logged0, all);
  }

  /** A write that starts inside a block starts in a block that exists. */
  lemma FirstPresent(g: Geo, s: seq<Block>, ip: Inode, off: nat)
    requires g.Ok() && |s| == g.size && InodeOk(g, ip) && Complete(s, g, ip) && off <= ip.size && off % 1024 != 0
    ensures First(g, s, ip, off) == 1
  {
    assert Present(s, g, ip, off - 1) && (off - 1) / BSIZE == off / BSIZE;
  }

  lemma UnionSize(a: set<nat>, b: set<nat>, c: set<nat>, x: nat)
    ensures |a + b + c + {x}| <= |a| + |b| + |c| + 1
  {
    assert |a + b| <= |a| + |b|;
    assert |a + b + c| <= |a + b| + |c|;
    assert |a + b + c + {x}| <= |a + b + c| + 1;
  }

  /** A run of bytes within one block is a run of the file. */
  lemma PieceOk(s: seq<Block>, g: Geo, ip: Inode, off: nat, m: nat)
    requires g.Ok() && |s| == g.size && InodeOk(g, ip) && Complete(s, g, ip)
    requires off + m <= ip.size && off % BSIZE + m <= BSIZE && 0 < m
    ensures Present(s, g, ip, off)
    ensures s[DataAddr(s, g, ip, off / BSIZE)][off % BSIZE..off % BSIZE + m] == Bytes(s, g, ip)[off..off + m]
  {
    assert Present(s, g, ip, off);
    var (d, f) := (s[DataAddr(s, g, ip, off / BSIZE)][off % BSIZE..off % BSIZE + m], Bytes(s, g, ip)[off..off + m]);
    forall k | 0 <= k < m ensures d[k] == f[k] {
      assert Present(s, g, ip, off + k) && (off + k) / BSIZE == off / BSIZE && (off + k) % BSIZE == off % BSIZE + k;
    }
  }

  lemma OverwrittenJoin(f: seq<Byte>, off: nat, a: seq<Byte>, b: seq<Byte>)
    requires off <= |f|
    ensures off + |a| <= |Overwritten(f, off, a)|
    ensures Overwritten(Overwritten(f, off, a), off + |a|, b) == Overwritten(f, off, a + b)
  {
  }

  /** After src[..n] at off0, a further write of r of the next bytes; -1 writes nothing. */
  lemma WroteMore(f: seq<Byte>, x: seq<Byte>, y: seq<Byte>, off0: nat, src: seq<Byte>, n: nat, n1: nat, r: int)
    requires n + n1 <= |src| && -1 <= r <= n1 && Wrote(f, x, off0, src[..n]) && (n > 0 ==> off0 <= |f|)
    requires r == -1 ==> y == x
    requires r >= 0 ==> off0 + n <= |x| && y == Overwritten(x, off0 + n, src[n..n + n1][..r])
    ensures Wrote(f, y, off0, src[..if r > 0 then n + r else n])
    ensures r >= 0 ==> off0 <= |f|
  {
    if r >= 0 {
      assert n == 0 ==> src[..n] == [];
      if off0 <= |f| {
        OverwrittenJoin(f, off0, src[..n], src[n..n + n1][..r]);
        assert src[..n] + src[n..n + n1][..r] == src[..n + r];
      }
    }
  }

  /** y is f with data written at off0, if off0 is within f; otherwise it is f. */
  predicate Wrote(f: seq<Byte>, y: seq<Byte>, off0: nat, data: seq<Byte>) {
    y == if off0 <= |f| then Overwritten(f, off0, data) else f
  }

  lemma WroteNothing(f: seq<Byte>, off: nat)
    ensures Wrote(f, f, off, [])
  {
  }

  lemma SameBlocksUnchanged(s: seq<Block>, s': seq<Block>, g: Geo, ino: seq<Inode>, j: nat)
    requires Owners(s, g, ino, {}) && |s'| == g.size && SameBlocks(s, s', g, {}) && j < |ino|
    ensures Unchanged(s, s', g, ino[j], ino[j])
  {
    hide Used, Owned;
    forall bn: nat | bn < MAXFILE
      ensures DataAddr(s', g, ino[j], bn) == DataAddr(s, g, ino[j], bn)
      ensures DataAddr(s, g, ino[j], bn) != 0 ==> g.datastart <= DataAddr(s, g, ino[j], bn) < g.size
    {
      assert At(s, g, ino, j, NDIRECT) == 0 || g.datastart <= At(s, g, ino, j, NDIRECT) < g.size;
      assert DataAddr(s, g, ino[j], bn) == At(s, g, ino, j, Slot(bn));
    }
  }

  lemma SliceJoin<T>(f: seq<T>, a: nat, b: nat, c: nat)
    requires a <= b <= c <= |f|
    ensures f[a..b] + f[b..c] == f[a..c]
  {
  }
}
