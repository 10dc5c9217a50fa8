/** The file system as a whole: blocks and inode table, and when they are sound. */
module FsState {
  import opened Blocks
  import opened FsOwner
  import opened FsMap
  import opened FsBytes
  import opened FsInode

  /** The blocks, and the inodes as the inode blocks hold them. */
  datatype Image = Image(s: seq<Block>, ino: seq<Inode>)

  function InodeBlock(start: nat, i: nat): nat { i / IPB + start }

  /** Each inode block holds what the inodes are. */
  ghost predicate Synced(g: Geo, start: nat, s: seq<Block>, ino: seq<Inode>, but: set<nat>) {
    && start + |ino| / IPB < g.bmapstart < |s|
    && forall i: nat :: i < |ino| && i !in but ==> Decode(s[InodeBlock(start, i)], i % IPB) == ino[i]
  }

  /** iupdate brings inode i's block up to date and leaves the other inodes of the block. */
  lemma InodeWritten(g: Geo, start: nat, s: seq<Block>, ino: seq<Inode>, i: nat)
    requires Synced(g, start, s, ino, {i}) && i < |ino| && Storable(ino[i])
    ensures var n := InodeBlock(start, i);
            n < |s| && Synced(g, start, s[n := Encode(s[n], i % IPB, ino[i])], ino, {})
  {
    hide Decode, Encode;
    var n := InodeBlock(start, i);
    forall j: nat | j < |ino| && InodeBlock(start, j) == n
      ensures Decode(Encode(s[n], i % IPB, ino[i]), j % IPB) == ino[j]
    {
      RoundTrip(s[n], i % IPB, ino[i], j % IPB);
    }
  }

  /** Between operations: the bitmap is exact, no block is shared, every file is complete and
      every inode block is up to date. */
  ghost predicate Sound(g: Geo, start: nat, im: Image) {
    && Owners(im.s, g, im.ino, {}) && Synced(g, start, im.s, im.ino, {})
    && forall j :: 0 <= j < |im.ino| ==> Complete(im.s, g, im.ino[j])
  }

  /** One operation took im to im' and logged tx, which holds every block that changed. */
  ghost predicate Transaction(g: Geo, start: nat, im: Image, im': Image, tx: set<nat>) {
    Sound(g, start, im) && Sound(g, start, im') && Journaled(start, im.s, {}, im'.s, tx)
  }

  /** Blocks from the inode blocks on decide everything. */
  lemma SameFrom(g: Geo, start: nat, im: Image, r: seq<Block>)
    requires Sound(g, start, im) && |r| == |im.s| && forall c: nat :: start <= c < |r| ==> r[c] == im.s[c]
    ensures Sound(g, start, Image(r, im.ino))
    ensures forall j: nat :: j < |im.ino| ==> Bytes(r, g, im.ino[j]) == Bytes(im.s, g, im.ino[j])
  {
    hide Owned, Decode;
    var (s, ino) := (im.s, im.ino);
    assert SameBlocks(s, r, g, {});
    forall c: nat | c < g.size ensures Used(r, g, c) == Used(s, g, c) { }
    forall j: nat, k: nat | j < |ino| && k < SLOTS ensures At(r, g, ino, j, k) == At(s, g, ino, j, k) {
      SameSlots(s, r, g, ino, ino, j);
    }
    OwnedSame(s, r, g, ino);
    assert Owners(r, g, ino, {});
    forall j: nat | j < |ino| ensures Complete(r, g, ino[j]) && Bytes(r, g, ino[j]) == Bytes(s, g, ino[j]) {
      SameBlocksUnchanged(s, r, g, ino, j);
      UnchangedBytes(s, r, g, ino[j], ino[j]);
    }
  }
}
