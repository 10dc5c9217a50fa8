/** The on-disk inode: sixteen words, four 16-bit fields in the first two, then the size and the
    block addresses. */
module FsInode {
  import opened Blocks
  import opened FsOwner

  const IPB := 16

  predicate Storable(ip: Inode) {
    |ip.addrs| == NDIRECT + 1 && ip.Shorts() && ip.size < WORD && forall k :: 0 <= k < |ip.addrs| ==> ip.addrs[k] < WORD
  }

  /** Stores the first n addresses of inode number `slot` of the block. */
  function PutAddrs(b: Block, slot: nat, addrs: seq<nat>, n: nat): Block
    requires slot < IPB && n <= |addrs| == NDIRECT + 1 && forall k :: 0 <= k < |addrs| ==> addrs[k] < WORD
  {
    if n == 0 then b else PutWord(PutAddrs(b, slot, addrs, n - 1), 16 * slot + 2 + n, addrs[n - 1])
  }

  /** Two 16-bit fields in one word. */
  function Pair(lo: nat, hi: nat): Word
    requires lo < 0x1_0000 && hi < 0x1_0000
  {
    lo + 0x1_0000 * hi
  }

  lemma PairParts(lo: nat, hi: nat)
    requires lo < 0x1_0000 && hi < 0x1_0000
    ensures Pair(lo, hi) % 0x1_0000 == lo && Pair(lo, hi) / 0x1_0000 == hi
  {
  }

  /** The words of an inode before its addresses. */
  function PutFields(b: Block, slot: nat, ip: Inode): Block
    requires slot < IPB && Storable(ip)
  {
    PutWord(PutWord(PutWord(b, 16 * slot, Pair(ip.kind, ip.major)), 16 * slot + 1, Pair(ip.minor, ip.nlink)),
            16 * slot + 2, ip.size)
  }

  /** iupdate's copy of the in-memory inode into its block. */
  function Encode(b: Block, slot: nat, ip: Inode): Block
    requires slot < IPB && Storable(ip)
  {
    PutAddrs(PutFields(b, slot, ip), slot, ip.addrs, NDIRECT + 1)
  }

  function AddrWord(b: Block, slot: nat, k: nat): nat
    requires slot < IPB && k <= NDIRECT
  {
    GetWord(b, 16 * slot + 3 + k)
  }

  /** ilock's copy out of the block. */
  function Decode(b: Block, slot: nat): Inode
    requires slot < IPB
  {
    var (x, y) := (GetWord(b, 16 * slot), GetWord(b, 16 * slot + 1));
    Inode(x % 0x1_0000, x / 0x1_0000, y % 0x1_0000, y / 0x1_0000, GetWord(b, 16 * slot + 2),
          seq(NDIRECT + 1, k requires 0 <= k <= NDIRECT => AddrWord(b, slot, k)))
  }

  lemma {:induction false} PutAddrsWords(b: Block, slot: nat, addrs: seq<nat>, n: nat, w: nat)
    requires slot < IPB && n <= |addrs| == NDIRECT + 1 && forall k :: 0 <= k < |addrs| ==> addrs[k] < WORD
    requires w < WORDS
    ensures GetWord(PutAddrs(b, slot, addrs, n), w)
            == if 16 * slot + 3 <= w < 16 * slot + 3 + n then addrs[w - 16 * slot - 3] else GetWord(b, w)
  {
    if n > 0 {
      PutAddrsWords(b, slot, addrs, n - 1, w);
      GetPut(PutAddrs(b, slot, addrs, n - 1), 16 * slot + 2 + n, addrs[n - 1], w);
    }
  }

  /** Word w of inode `slot`. */
  function FieldWord(slot: nat, ip: Inode, w: nat): Word
    requires slot < IPB && Storable(ip) && 16 * slot <= w < 16 * slot + 16
  {
    if w == 16 * slot then Pair(ip.kind, ip.major)
    else if w == 16 * slot + 1 then Pair(ip.minor, ip.nlink)
    else if w == 16 * slot + 2 then ip.size
    else ip.addrs[w - 16 * slot - 3]
  }

  lemma EncodeWord(b: Block, slot: nat, ip: Inode, w: nat)
    requires slot < IPB && Storable(ip) && w < WORDS
    ensures GetWord(Encode(b, slot, ip), w) ==
              if 16 * slot <= w < 16 * slot + 16 then FieldWord(slot, ip, w) else GetWord(b, w)
  {
    hide GetWord, PutWord, PutAddrs, Pair;
    var b1 := PutWord(b, 16 * slot, Pair(ip.kind, ip.major));
    var b2 := PutWord(b1, 16 * slot + 1, Pair(ip.minor, ip.nlink));
    PutAddrsWords(PutFields(b, slot, ip), slot, ip.addrs, NDIRECT + 1, w);
    GetPut(b2, 16 * slot + 2, ip.size, w);
    GetPut(b1, 16 * slot + 1, Pair(ip.minor, ip.nlink), w);
    GetPut(b, 16 * slot, Pair(ip.kind, ip.major), w);
  }

  /** Reading back gives the inode written, and the block's other inodes are untouched. */
  lemma RoundTrip(b: Block, slot: nat, ip: Inode, other: nat)
    requires slot < IPB && other < IPB && Storable(ip)
    ensures Decode(Encode(b, slot, ip), other) == if other == slot then ip else Decode(b, other)
  {
    hide GetWord, PutWord, PutAddrs, Encode, Pair;
    PairParts(ip.kind, ip.major);
    PairParts(ip.minor, ip.nlink);
    forall w: nat | 16 * other <= w < 16 * other + 16
      ensures GetWord(Encode(b, slot, ip), w) == if other == slot then FieldWord(slot, ip, w) else GetWord(b, w)
    {
      EncodeWord(b, slot, ip, w);
    }
  }

  /** Where the fields lie: 64 bytes for each inode, four 16-bit numbers, the size, thirteen addresses, all
      little-endian. */
  lemma InodeLayout(b: Block, slot: nat, ip: Inode)
    requires slot < 16 && Storable(ip)
    ensures var (e, o) := (Encode(b, slot, ip), 64 * slot);
            && Short(e, o) == ip.kind && Short(e, o + 2) == ip.major
            && Short(e, o + 4) == ip.minor && Short(e, o + 6) == ip.nlink
            && Short(e, o + 8) + 65536 * Short(e, o + 10) == ip.size
            && forall k :: 0 <= k < 13 ==> Short(e, o + 12 + 4 * k) + 65536 * Short(e, o + 14 + 4 * k) == ip.addrs[k]
  {
    var (e, o) := (Encode(b, slot, ip), 64 * slot);
    forall w: nat | 16 * slot <= w < 16 * slot + 16
      ensures Short(e, 4 * w) + 65536 * Short(e, 4 * w + 2) == FieldWord(slot, ip, w)
    {
      hide Encode, FieldWord;
      EncodeWord(b, slot, ip, w);
      ShortWord(e, w);
    }
    hide Encode, Short;
    Halved(Short(e, o), Short(e, o + 2), ip.kind, ip.major);
    Halved(Short(e, o + 4), Short(e, o + 6), ip.minor, ip.nlink);
    forall k | 0 <= k < 13
      ensures Short(e, o + 12 + 4 * k) + 65536 * Short(e, o + 14 + 4 * k) == ip.addrs[k]
    {
      var w := 16 * slot + 3 + k;
      assert 4 * w == o + 12 + 4 * k;
    }
    assert 4 * (16 * slot + 2) == o + 8;
  }

  /** The 16-bit number at byte o. */
  function Short(b: Block, o: nat): (r: nat)
    requires o + 1 < 1024
    ensures r < 65536
  {
    b[o] as int + 256 * (b[o + 1] as int)
  }

  lemma ShortWord(b: Block, w: nat)
    requires w < WORDS
    ensures GetWord(b, w) == Short(b, 4 * w) + 65536 * Short(b, 4 * w + 2)
  {
  }

  lemma Halved(a: nat, b: nat, x: nat, y: nat)
    requires a < 65536 && x < 65536 && a + 65536 * b == x + 65536 * y
    ensures a == x && b == y
  {
  }
}
