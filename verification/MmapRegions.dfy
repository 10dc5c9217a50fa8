/** sys_mmap's placement of regions, mmapfault's pages in them and sys_munmap's trimming. */
module MmapRegions {
  import opened Common

  const TRAPFRAME := 0x3F_FFFF_E000  // MAXVA - 2 * PGSIZE
  const NVMA := 16
  const MAXLEN := 0x8000_0000        // an int length rounds up to no more than this
  const TWO64 := 0x1_0000_0000_0000_0000

  /** sys_munmap's answer; Panicked when uvmunmap is given an unaligned address. */
  datatype Outcome = Done | Refused | Panicked

  datatype Region = Region(used: bool, addr: nat, length: nat, shared: bool, offset: int, file: nat)

  /** page_round_up: the least multiple of the page size that is not smaller. */
  function RoundUp(sz: nat): (r: nat)
    ensures r % PGSIZE == 0 && sz <= r < sz + PGSIZE
  {
    (sz + PGSIZE - 1) / PGSIZE * PGSIZE
  }

  /** The end of the last page of a region. */
  function End(r: Region): nat { r.addr + RoundUp(r.length) }

  predicate RegionOk(r: Region) {
    r.used ==> MAXLEN <= r.addr && r.addr % PGSIZE == 0 && 0 < r.length < MAXLEN && End(r) <= TRAPFRAME
  }

  /** No page belongs to two regions. */
  predicate Apart(r: Region, s: Region) {
    r.used && s.used ==> End(r) <= s.addr || End(s) <= r.addr
  }

  predicate AllApart(rs: seq<Region>) {
    forall i, j :: 0 <= i < j < |rs| ==> Apart(rs[i], rs[j])
  }

  /** Address e is where the regions end or where one of them starts. */
  predicate Below(rs: seq<Region>, e: nat) {
    e == TRAPFRAME || exists i :: 0 <= i < |rs| && rs[i].used && rs[i].addr == e
  }

  predicate AllOk(rs: seq<Region>) {
    forall i :: 0 <= i < |rs| ==> RegionOk(rs[i])
  }

  /** The test of the placement loop, on the length in bytes. */
  predicate Collides(r: Region, addr: int, len: nat) {
    r.used && addr < r.addr + r.length && addr + len > r.addr
  }

  /** There is no room for len bytes at a. */
  predicate Taken(rs: seq<Region>, a: nat, len: nat) {
    exists i :: 0 <= i < |rs| && rs[i].used && a < rs[i].addr + rs[i].length && rs[i].addr < a + len
  }

  /** There is no room for len bytes anywhere above addr. */
  predicate Highest(rs: seq<Region>, addr: int, len: nat) {
    forall a: nat :: addr < a && a + len <= TRAPFRAME ==> Taken(rs, a, len)
  }

  /** Every place between a collision and the end of its restart is taken by the same region. */
  lemma HighestNext(rs: seq<Region>, addr: nat, len: nat, j: nat)
    requires j < |rs| && Highest(rs, addr, len) && Collides(rs[j], addr, len)
    ensures Highest(rs, rs[j].addr - len, len)
  {
    forall a: nat | rs[j].addr - len < a && a + len <= TRAPFRAME ensures Taken(rs, a, len) {
      if a <= addr { assert rs[j].used && a < rs[j].addr + rs[j].length && rs[j].addr < a + len; }
    }
  }

  /** For whole pages, no collision in bytes is no collision in pages. */
  lemma NoCollision(r: Region, addr: nat, len: nat)
    requires RegionOk(r) && r.used && addr % PGSIZE == 0 && !Collides(r, addr, len)
    ensures End(r) <= addr || addr + len <= r.addr
  {
  }

  lemma {:induction false} SmallSet(s: set<nat>, n: nat)
    requires forall i <- s :: i < n
    ensures |s| <= n
    decreases n
  {
    if n > 0 {
      SmallSet(s - {n - 1}, n - 1);
    } else {
      assert s == {};
    }
  }

  /** Regions hit so far are different used ones, so there are at most 15 of them. */
  lemma FewHits(hits: set<nat>, slot: nat)
    requires slot < NVMA && forall i <- hits :: i < NVMA && i != slot
    ensures |hits| < NVMA
  {
    SmallSet(hits + {slot}, NVMA);
  }

  /** The placement loop is at addr after running into the regions hits. */
  predicate Placing(rs: seq<Region>, slot: nat, addr: nat, len: nat, hits: set<nat>) {
    && addr % PGSIZE == 0 && addr + len <= TRAPFRAME <= addr + len + |hits| * 0x1_0000_0000
    && (forall i <- hits :: i < |rs| && i != slot && rs[i].used && addr + len <= rs[i].addr)
    && |hits| < NVMA && Below(rs, addr + len)
  }

  lemma PlacingStart(rs: seq<Region>, slot: nat, len: nat)
    requires len % PGSIZE == 0 && len <= MAXLEN
    ensures Placing(rs, slot, TRAPFRAME - len, len, {})
  {
    Multiple(TRAPFRAME, len);
  }

  lemma PlacingNext(rs: seq<Region>, slot: nat, addr: nat, len: nat, hits: set<nat>, j: nat)
    requires AllOk(rs) && |rs| == NVMA && slot < NVMA && !rs[slot].used && j < NVMA
    requires len % PGSIZE == 0 && 0 < len <= MAXLEN && Placing(rs, slot, addr, len, hits) && Collides(rs[j], addr, len)
    ensures j !in hits && |hits + {j}| == |hits| + 1 < NVMA && len <= rs[j].addr
    ensures Placing(rs, slot, rs[j].addr - len, len, hits + {j})
  {
    assert RegionOk(rs[j]);
    hide AllOk, RoundUp;
    assert j !in hits;
    FewHits(hits + {j}, slot);
    var a: nat := rs[j].addr - len;
    Multiple(rs[j].addr, len);
    assert Below(rs, a + len);
  }

  lemma PlacingDone(rs: seq<Region>, slot: nat, addr: nat, len: nat, hits: set<nat>)
    requires AllOk(rs) && |rs| == NVMA && 0 < len <= MAXLEN && Placing(rs, slot, addr, len, hits)
    requires forall i :: 0 <= i < NVMA ==> !Collides(rs[i], addr, len)
    ensures MAXLEN <= addr && addr % PGSIZE == 0 && addr + len <= TRAPFRAME && Below(rs, addr + len)
    ensures |hits| < NVMA && forall i <- hits :: i < NVMA && rs[i].used
    ensures forall i :: 0 <= i < NVMA && rs[i].used ==> End(rs[i]) <= addr || addr + len <= rs[i].addr
  {
    hide Below;
    forall i | 0 <= i < NVMA && rs[i].used ensures End(rs[i]) <= addr || addr + len <= rs[i].addr {
      assert RegionOk(rs[i]);
      NoCollision(rs[i], addr, len);
    }
  }

  // ----- trimming

  /** va is in a page of the region. */
  predicate Covers(r: Region, va: nat) { r.used && r.addr <= va < End(r) }

  /** The region that sys_munmap makes of r.  Its length argument is an int, and nothing keeps it from
      being negative. */
  function Trimmed(r: Region, addr: nat, length: int): Region
    requires 0 <= r.addr + length && length <= r.length
  {
    var t := if addr == r.addr
             then r.(addr := r.addr + length, offset := r.offset + length, length := r.length - length)
             else r.(length := r.length - length);
    if t.length == 0 then t.(used := false) else t
  }

  predicate Inside(r: Region, addr: nat, length: int) {
    r.used && r.addr <= addr && addr + length <= r.addr + r.length
  }

  /** sys_munmap's test, in 64-bit arithmetic. */
  predicate Inside64(r: Region, addr: nat, length: int) {
    r.used && addr >= r.addr && (addr + length) % TWO64 <= r.addr + r.length
  }

  /** The range is a head or a tail of the region, which is what sys_munmap accepts. */
  predicate Cuts(r: Region, addr: nat, length: int) {
    Inside(r, addr, length) && (addr == r.addr || addr + length == r.addr + r.length)
  }

  /** A part cut off the head is in whole pages. */
  predicate WholeHead(r: Region, addr: nat, length: int) {
    addr == r.addr && length < r.length ==> length % PGSIZE == 0
  }

  /** The bytes of t are bytes of r. */
  predicate Within(t: Region, r: Region) {
    t.used ==> r.addr <= t.addr && t.addr + t.length <= r.addr + r.length
  }

  /** i is the first region that sys_munmap's scan accepts. */
  predicate FirstInside(rs: seq<Region>, addr: nat, length: int, i: nat) {
    i < |rs| && Inside(rs[i], addr, length) && forall l :: 0 <= l < i ==> !Inside(rs[l], addr, length)
  }

  /** A sum that wraps around is accepted by the first test for any region below it, and by the
      second for none. */
  lemma NoWrap(r: Region, addr: nat, length: int)
    requires RegionOk(r) && addr < TWO64 && -MAXLEN <= length < MAXLEN
    ensures Inside(r, addr, length) ==> Inside64(r, addr, length) && (addr + length) % TWO64 == addr + length
    ensures Inside64(r, addr, length) && !Inside(r, addr, length) ==>
              addr != r.addr && (addr + length) % TWO64 != r.addr + r.length && addr + length >= TWO64
  {
    if r.used && r.addr <= addr {
      var x: nat := addr + length;
      if x >= TWO64 { Wraps(x); } else { Fits(x); }
    }
  }

  lemma FarOut(r: Region, addr: nat, length: int)
    requires RegionOk(r) && addr + length >= TWO64
    ensures !Inside(r, addr, length)
  {
  }

  /** What is left of a region lies inside it exactly when the length was not negative. */
  lemma CutWithin(r: Region, addr: nat, length: int)
    requires RegionOk(r) && Cuts(r, addr, length) && -MAXLEN <= length < MAXLEN
    ensures 0 <= r.addr + length && length <= r.length
    ensures Within(Trimmed(r, addr, length), r) <==> 0 <= length
  {
  }

  /** Byte b is in the new region exactly when it was in the old one and is not in the range; with a negative
      length, also when it lies between the end of the range and its start or as far beyond the region.  The
      bytes keep their places in the file. */
  lemma CutBytes(r: Region, addr: nat, length: int, b: nat)
    requires RegionOk(r) && Cuts(r, addr, length) && -MAXLEN <= length < MAXLEN
    ensures 0 <= r.addr + length && length <= r.length
    ensures var t := Trimmed(r, addr, length);
            && t.file == r.file && t.shared == r.shared && (t.used <==> length < r.length)
            && t.offset - t.addr == r.offset - r.addr
            && (0 <= length ==>
                  (t.addr <= b < t.addr + t.length <==>
                     r.addr <= b < r.addr + r.length && !(addr <= b < addr + length)))
            && (length < 0 ==>
                  (t.addr <= b < t.addr + t.length <==>
                     || r.addr <= b < r.addr + r.length
                     || (if addr == r.addr then addr + length <= b < addr
                         else r.addr + r.length <= b < r.addr + r.length - length)))
  {
  }

  lemma Wraps(x: nat)
    requires TWO64 <= x < TWO64 + MAXLEN
    ensures x % TWO64 == x - TWO64
  {
  }

  lemma Fits(x: nat)
    requires x < TWO64
    ensures x % TWO64 == x
  {
  }

  /** A cut in whole pages; the last page may be partial where the region ends. */
  predicate Trims(r: Region, addr: nat, length: nat) {
    Cuts(r, addr, length) && 0 < length && addr % PGSIZE == 0 && WholeHead(r, addr, length)
  }

  lemma Multiple(a: nat, b: nat)
    requires a % PGSIZE == 0 && b % PGSIZE == 0
    ensures (a + b) % PGSIZE == 0 && (a >= b ==> (a - b) % PGSIZE == 0)
    ensures RoundUp(a) == a
  {
    assert (a + PGSIZE - 1) / PGSIZE == a / PGSIZE;
    hide RoundUp;
    var (x, y) := (a / PGSIZE, b / PGSIZE);
    assert a + b == PGSIZE * (x + y) && a - b == PGSIZE * (x - y);
  }

  lemma RoundUpSum(a: nat, b: nat)
    requires a % PGSIZE == 0
    ensures RoundUp(a + b) == a + RoundUp(b)
  {
  }

  lemma TrimHead(r: Region, length: nat)
    requires RegionOk(r) && Trims(r, r.addr, length) && length < r.length
    ensures var t := Trimmed(r, r.addr, length);
            RegionOk(t) && End(t) == End(r) && r.addr + RoundUp(length) == t.addr
  {
    hide RoundUp;
    Multiple(r.addr, length);
    Multiple(length, 0);
    RoundUpSum(length, r.length - length);
  }

  lemma TrimTail(r: Region, addr: nat, length: nat)
    requires RegionOk(r) && Trims(r, addr, length) && addr != r.addr
    ensures var t := Trimmed(r, addr, length);
            RegionOk(t) && End(t) == addr && addr + RoundUp(length) == End(r)
  {
    hide RoundUp;
    var k: nat := addr - r.addr;
    Multiple(addr, r.addr);
    Multiple(k, 0);
    RoundUpSum(k, length);
  }

  /** Trimming removes exactly the pages asked for, and what survives keeps its file offset. */
  lemma TrimExact(r: Region, addr: nat, length: nat, va: nat)
    requires RegionOk(r) && Trims(r, addr, length)
    ensures var t := Trimmed(r, addr, length);
            && RegionOk(t)
            && (Covers(r, va) <==> Covers(t, va) || addr <= va < addr + RoundUp(length))
            && !(Covers(t, va) && addr <= va < addr + RoundUp(length))
            && (Covers(t, va) ==> t.offset + (va - t.addr) == r.offset + (va - r.addr))
            && (t.used ==> r.addr <= t.addr && End(t) <= End(r))
  {
    hide RoundUp;
    if addr != r.addr {
      TrimTail(r, addr, length);
    } else if length < r.length {
      TrimHead(r, length);
    }
  }

  lemma HeadAligned(addr: nat, length: nat)
    requires addr % PGSIZE == 0
    ensures (addr + length) % PGSIZE == 0 <==> length % PGSIZE == 0
  {
  }

  /** A region stays page-aligned exactly when a part cut off its head is in whole pages. */
  lemma TrimAligned(r: Region, addr: nat, length: nat)
    requires RegionOk(r) && Cuts(r, addr, length)
    ensures var t := Trimmed(r, addr, length);
            && (RegionOk(t) <==> WholeHead(r, addr, length))
            && (RegionOk(t) && t.used ==> r.addr <= t.addr && End(t) <= End(r))
  {
    hide RoundUp;
    if addr == r.addr {
      if length < r.length {
        HeadAligned(r.addr, length);
        if length % PGSIZE == 0 { RoundUpSum(length, r.length - length); }
      }
    } else {
      RoundUpMono(r.length - length, r.length);
    }
  }

  lemma RoundUpMono(a: nat, b: nat)
    requires a <= b
    ensures RoundUp(a) <= RoundUp(b)
  {
  }

  // ----- pages

  /** Where a page's contents come from: a file and an offset in it. */
  type Origin = (nat, int)

  function Down(va: nat): nat { va / PGSIZE * PGSIZE }

  lemma DownOk(va: nat)
    ensures Down(va) % PGSIZE == 0 && Down(va) <= va < Down(va) + PGSIZE
    ensures va % PGSIZE == 0 ==> Down(va) == va
  {
  }

  /** Of two addresses, the page of the first is below an aligned second exactly when it is below it itself. */
  lemma DownBelow(va: nat, b: nat)
    requires b % PGSIZE == 0
    ensures Down(va) < b <==> va < b
    ensures b <= Down(va) <==> b <= va
  {
  }

  /** mmapfault's test on the rounded address finds the regions that va is in a page of. */
  lemma FaultTest(r: Region, va: nat)
    requires RegionOk(r)
    ensures r.used && Down(va) >= r.addr && Down(va) < r.addr + r.length <==> Covers(r, va)
    ensures Covers(r, va) <==> Covers(r, Down(va))
  {
    if r.used {
      DownBelow(va, r.addr);
      DownOk(va);
      RoundUpAligned(r.addr, r.length, Down(va));
      DownBelow(va, r.addr + RoundUp(r.length));
      DownBelow(Down(va), r.addr);
    }
  }

  lemma RoundUpAligned(a: nat, n: nat, va: nat)
    requires a % PGSIZE == 0 && va % PGSIZE == 0
    ensures va < a + n <==> va < a + RoundUp(n)
    ensures (a + RoundUp(n)) % PGSIZE == 0
  {
  }

  /** The page at va belongs to the region and holds the part of its file that belongs there. */
  predicate Backed(r: Region, va: nat, o: Origin) {
    Covers(r, va) && o == (r.file, r.offset + (va - r.addr))
  }

  /** Every resident page is whole and backed by a region. */
  ghost predicate AllBacked(rs: seq<Region>, resident: map<nat, Origin>) {
    forall va :: va in resident ==> va % PGSIZE == 0 && exists i :: 0 <= i < |rs| && Backed(rs[i], va, resident[va])
  }

  /** The loop of sys_munmap meets a resident page in round k. */
  predicate Hit(resident: map<nat, Origin>, addr: nat, k: nat) {
    Down(addr + k * PGSIZE) in resident
  }

  /** At an unaligned address the first resident page the loop meets makes uvmunmap panic. */
  ghost predicate Faults(resident: map<nat, Origin>, addr: nat, length: nat) {
    addr % PGSIZE != 0 && exists k: nat :: k * PGSIZE < length && Hit(resident, addr, k)
  }

  /** From an unaligned address the loop can stop short of the last page of the range. */
  predicate LeftBehind(resident: map<nat, Origin>, addr: nat, length: nat) {
    addr % PGSIZE != 0 && 0 < length && Down(addr + length - 1) in resident
  }

  class Maps {
    var regions: seq<Region>
    var resident: map<nat, Origin>    // pages that have been faulted in
    var written: seq<(nat, Origin)>   // write-backs: page address, place in the file

    ghost predicate Valid()
      reads this
    {
      |regions| == NVMA && AllOk(regions) && AllApart(regions)
    }

    ghost predicate Inhabited()
      reads this
    {
      AllBacked(regions, resident)
    }

    constructor ()
      ensures Valid() && Inhabited() && forall i :: 0 <= i < NVMA ==> !regions[i].used
      ensures resident == map[] && written == []
    {
      regions := seq(NVMA, _ => Region(false, 0, 0, false, 0, 0));
      resident, written := map[], [];
    }

    method FreeSlot() returns (slot: int)
      requires Valid()
      ensures slot == -1 ==> forall i :: 0 <= i < NVMA ==> regions[i].used
      ensures slot != -1 ==> 0 <= slot < NVMA && !regions[slot].used && forall i :: 0 <= i < slot ==> regions[i].used
    {
      slot := 0;
      while slot < NVMA
        invariant 0 <= slot <= NVMA && forall i :: 0 <= i < slot ==> regions[i].used
      {
        if !regions[slot].used { return; }
        slot := slot + 1;
      }
      slot := -1;
    }

    /** The inner scan of the placement loop. */
    method FindCollision(addr: nat, len: nat) returns (j: int)
      requires Valid()
      ensures j == -1 ==> forall i :: 0 <= i < NVMA ==> !Collides(regions[i], addr, len)
      ensures j != -1 ==> 0 <= j < NVMA && Collides(regions[j], addr, len)
    {
      j := 0;
      while j < NVMA
        invariant 0 <= j <= NVMA && forall i :: 0 <= i < j ==> !Collides(regions[i], addr, len)
      {
        if Collides(regions[j], addr, len) { return; }
        j := j + 1;
      }
      j := -1;
    }

    /** The placement loop: top down, restarting below each region it runs into.  hits are the
        regions that made it restart, and there is one for each restart. */
    method Place(len: nat, ghost slot: nat) returns (addr: nat, ghost hits: set<nat>, ghost restarts: nat)
      requires Valid() && slot < NVMA && !regions[slot].used && len % PGSIZE == 0 && 0 < len <= MAXLEN
      ensures addr % PGSIZE == 0 && MAXLEN <= addr && addr + len <= TRAPFRAME
      ensures Below(regions, addr + len) && Highest(regions, addr, len)
      ensures restarts == |hits|
      ensures forall i :: 0 <= i < NVMA && regions[i].used ==> End(regions[i]) <= addr || addr + len <= regions[i].addr
      ensures |hits| < NVMA && forall i <- hits :: i < NVMA && regions[i].used
    {
      hide AllOk, AllApart, Placing, Below, Taken;
      addr := TRAPFRAME - len;
      hits, restarts := {}, 0;
      PlacingStart(regions, slot, len);
      var collision := true;
      while collision
        invariant Placing(regions, slot, addr, len, hits) && restarts == |hits| < NVMA && Highest(regions, addr, len)
        invariant !collision ==> forall i :: 0 <= i < NVMA ==> !Collides(regions[i], addr, len)
        decreases NVMA - |hits|, collision
      {
        var j := FindCollision(addr, len);
        collision := j != -1;
        if collision {
          PlacingNext(regions, slot, addr, len, hits, j);
          HighestNext(regions, addr, len, j);
          hits, restarts := hits + {j}, restarts + 1;
          addr := regions[j].addr - len;
        }
      }
      PlacingDone(regions, slot, addr, len, hits);
    }

    /** sys_mmap; -1 on a bad length, a bad descriptor or a full table. */
    method Mmap(length: int, fdOk: bool, shared: bool, offset: int, file: nat) returns (r: int)
      requires Valid() && length < MAXLEN
      modifies this
      ensures Valid() && resident == old(resident) && written == old(written)
      ensures r == -1 <==> length <= 0 || !fdOk || forall i :: 0 <= i < NVMA ==> old(regions)[i].used
      ensures r == -1 ==> regions == old(regions)
      ensures r != -1 ==> MAXLEN <= r && r % 4096 == 0 && Below(old(regions), r + RoundUp(length))
      ensures r != -1 ==> !Taken(old(regions), r, RoundUp(length)) && Highest(old(regions), r, RoundUp(length))
      ensures r != -1 ==> exists i ::
                            && 0 <= i < NVMA && !old(regions)[i].used
                            && (forall l :: 0 <= l < i ==> old(regions)[l].used)
                            && regions == old(regions)[i := Region(true, r, length, shared, offset, file)]
      ensures old(Inhabited()) ==> Inhabited()
    {
      if !fdOk { return -1; }
      if length <= 0 { return -1; }
      var slot := FreeSlot();
      if slot == -1 { return -1; }
      ghost var hits, restarts;
      var addr;
      addr, hits, restarts := Place(RoundUp(length), slot);
      var v := Region(true, addr, length, shared, offset, file);
      assert End(v) == addr + RoundUp(length);
      Installed(regions, slot, v);
      if Inhabited() { InstalledBacked(regions, slot, v, resident); }
      regions := regions[slot := v];
      r := addr;
    }

    /** mmapfault; memory tells whether there is a page for it and for its table. */
    method Fault(va: nat, memory: bool) returns (ok: bool)
      requires Valid()
      modifies this`resident
      ensures ok <==> memory && Down(va) !in old(resident) && exists i :: 0 <= i < NVMA && Covers(regions[i], va)
      ensures !ok ==> resident == old(resident)
      ensures ok ==> exists i :: 0 <= i < NVMA && LoadedFrom(regions[i], va, old(resident), resident)
      ensures old(Inhabited()) ==> Inhabited()
    {
      var j := FindPage(va);
      if j == -1 { return false; }
      if Down(va) in resident { return false; }
      if !memory { return false; }
      var r := regions[j];
      FaultTest(r, va);
      DownOk(va);
      if Inhabited() { FaultBacked(regions, j, Down(va), resident); }
      LoadedAt(r, va, resident);
      hide LoadedFrom;
      resident := resident[Down(va) := PlaceOf(r, Down(va))];
      assert Covers(regions[j], va);
      ok := true;
    }

    method FindPage(va: nat) returns (j: int)
      requires Valid()
      ensures j == -1 ==> forall i :: 0 <= i < NVMA ==> !Covers(regions[i], va)
      ensures j != -1 ==> 0 <= j < NVMA && Covers(regions[j], va)
    {
      j := 0;
      while j < NVMA
        invariant 0 <= j <= NVMA && forall i :: 0 <= i < j ==> !Covers(regions[i], va)
      {
        var r := regions[j];
        FaultTest(r, va);
        if r.used && Down(va) >= r.addr && Down(va) < r.addr + r.length { return; }
        j := j + 1;
      }
      j := -1;
    }

    /** sys_munmap's scan. */
    method FindRegion(addr: nat, length: int) returns (j: int)
      requires Valid()
      ensures j == -1 ==> forall i :: 0 <= i < NVMA ==> !Inside64(regions[i], addr, length)
      ensures j != -1 ==> 0 <= j < NVMA && Inside64(regions[j], addr, length)
      ensures j != -1 ==> forall i :: 0 <= i < j ==> !Inside64(regions[i], addr, length)
    {
      j := 0;
      while j < NVMA
        invariant 0 <= j <= NVMA && forall i :: 0 <= i < j ==> !Inside64(regions[i], addr, length)
      {
        var r := regions[j];
        if r.used && addr >= r.addr && (addr + length) % TWO64 <= r.addr + r.length { return; }
        j := j + 1;
      }
      j := -1;
    }

    /** The loop of sys_munmap: write back and unmap the resident pages of the range; false when
        uvmunmap panics. */
    method UnmapPages(r: Region, addr: nat, length: int) returns (ok: bool)
      requires r.addr <= addr && forall va :: va in resident ==> va % PGSIZE == 0
      modifies this`resident, this`written
      ensures ok <==> !Faults(old(resident), addr, Bytes(length))
      ensures ok ==> resident == Kept(old(resident), addr, Bytes(length))
      ensures ok ==> written == old(written) + WriteBacks(r, old(resident), addr, RoundUp(Bytes(length)) / PGSIZE)
      ensures ok ==> forall va :: va in resident <==>
                       va in old(resident) && !(addr <= va < addr + length && (va - addr) % PGSIZE == 0)
      ensures ok ==> forall va :: va in resident ==> resident[va] == old(resident)[va]
      ensures ok ==> WrittenBack(old(resident), old(written), written, addr, length, r.shared)
    {
      var va := addr;
      ghost var k: nat := 0;
      KeptNone(resident, addr);
      while va < addr + length
        invariant va == addr + k * PGSIZE && k <= RoundUp(Bytes(length)) / PGSIZE
        invariant resident == Kept(old(resident), addr, k * PGSIZE)
        invariant written == old(written) + WriteBacks(r, old(resident), addr, k)
        invariant addr % PGSIZE != 0 ==> forall j: nat :: j < k ==> !Hit(old(resident), addr, j)
      {
        RoundStep(old(resident), addr, k);
        if Down(va) in resident {
          if r.shared {
            written := written + [(va, (r.file, r.offset + (va - r.addr)))];
          }
          if va % PGSIZE != 0 {
            assert Hit(old(resident), addr, k);
            return false;
          }
          resident := resident - {va};
        }
        va := va + PGSIZE;
        k := k + 1;
      }
      KeptEnd(old(resident), addr, Bytes(length), k);
      WritesAll(r, old(resident), old(written), addr, length);
      ok := true;
    }

    /** The second half of sys_munmap, once it has found the region; false when it panics. */
    method CutRegion(j: nat, addr: nat, length: int) returns (ok: bool)
      requires Valid() && Inhabited() && j < NVMA && Cuts(regions[j], addr, length) && -MAXLEN <= length < MAXLEN
      modifies this
      ensures ok <==> !Faults(old(resident), addr, Bytes(length))
      ensures ok ==> resident == Kept(old(resident), addr, Bytes(length))
      ensures 0 <= old(regions)[j].addr + length && length <= old(regions)[j].length
      ensures ok ==> regions == old(regions)[j := Trimmed(old(regions)[j], addr, length)]
      ensures ok ==> written == old(written) +
                       WriteBacks(old(regions)[j], old(resident), addr, RoundUp(Bytes(length)) / PGSIZE)
      ensures ok ==> WrittenBack(old(resident), old(written), written, addr, length, old(regions)[j].shared)
      ensures ok && length >= 0 ==> (Valid() <==> WholeHead(old(regions)[j], addr, length))
      ensures ok && Valid() ==> (Inhabited() <==> !LeftBehind(old(resident), addr, Bytes(length)))
    {
      assert forall va :: va in resident ==> va % PGSIZE == 0;
      assert RegionOk(regions[j]);
      hide AllOk, AllApart, AllBacked, Kept, Faults, LeftBehind, WriteBacks, RoundUp, WholeHead, WrittenBack;
      var v := regions[j];
      ok := UnmapPages(v, addr, length);
      if !ok { return; }
      if length >= 0 {
        CutRegions(regions, j, addr, length, old(resident));
      } else {
        GrownRegions(regions, j, addr, length, old(resident));
      }
      if addr == v.addr {
        v := v.(addr := v.addr + length, offset := v.offset + length);
      }
      v := v.(length := v.length - length);
      if v.length == 0 {
        v := v.(used := false);
      }
      assert v == Trimmed(regions[j], addr, length);
      regions := regions[j := v];
    }

    /** sys_munmap.  The first region that its scan accepts loses exactly the range, or gains it if the
        length is negative; which pages go with it depends on where the range starts and ends. */
    method Munmap(addr: nat, length: int) returns (r: Outcome)
      requires Valid() && Inhabited() && addr < TWO64 && -MAXLEN <= length < MAXLEN
      modifies this
      ensures r == Refused <==>
                forall i :: 0 <= i < NVMA && FirstInside(old(regions), addr, length, i) ==>
                  !Cuts(old(regions)[i], addr, length)
      ensures length >= 0 ==>
                (r == Refused <==> forall i :: 0 <= i < NVMA ==> !Cuts(old(regions)[i], addr, length))
      ensures r == Refused ==> regions == old(regions) && resident == old(resident) && written == old(written)
      ensures r != Refused ==> (r == Panicked <==> Faults(old(resident), addr, Bytes(length)))
      ensures r == Done ==> resident == Kept(old(resident), addr, Bytes(length))
      ensures r == Done ==>
                exists i ::
                  && 0 <= i < NVMA && FirstInside(old(regions), addr, length, i) && Cuts(old(regions)[i], addr, length)
                  && 0 <= old(regions)[i].addr + length && length <= old(regions)[i].length
                  && regions == old(regions)[i := Trimmed(old(regions)[i], addr, length)]
                  && written == old(written) +
                     WriteBacks(old(regions)[i], old(resident), addr, RoundUp(Bytes(length)) / PGSIZE)
                  && WrittenBack(old(resident), old(written), written, addr, length, old(regions)[i].shared)
                  && (Within(regions[i], old(regions)[i]) <==> 0 <= length)
                  && (0 <= length ==> (Valid() <==> WholeHead(old(regions)[i], addr, length)))
      ensures r == Done ==> Homeward(written, |old(written)|, old(resident))
      ensures r == Done && Valid() ==> (Inhabited() <==> !LeftBehind(old(resident), addr, Bytes(length)))
    {
      hide AllApart, AllBacked, Kept, Faults, LeftBehind, WriteBacks, RoundUp, WholeHead, Trimmed, Homeward;
      hide WrittenBack;
      var j := FindRegion(addr, length);
      forall i | 0 <= i < NVMA
        ensures RegionOk(regions[i]) && (Inside(regions[i], addr, length) ==> Inside64(regions[i], addr, length))
      {
        NoWrap(regions[i], addr, length);
      }
      hide AllOk;
      if j == -1 { return Refused; }
      var v := regions[j];
      NoWrap(v, addr, length);
      if addr != v.addr && (addr + length) % TWO64 != v.addr + v.length {
        if !Inside(v, addr, length) {
          forall i | 0 <= i < NVMA ensures !Inside(regions[i], addr, length) { FarOut(regions[i], addr, length); }
        } else if length >= 0 {
          OnlyOne(regions, j, addr, length);
        }
        return Refused;
      }
      assert FirstInside(old(regions), addr, length, j) && Cuts(old(regions)[j], addr, length);
      CutWithin(v, addr, length);
      WrittenHome(regions, j, addr, Bytes(length), resident, written);
      var ok := CutRegion(j, addr, length);
      r := if ok then Done else Panicked;
    }
  }

  /** The bytes the loop of sys_munmap goes through. */
  function Bytes(length: int): nat { if length < 0 then 0 else length }

  /** The place in the file of the region's page at va. */
  function PlaceOf(r: Region, va: nat): Origin { (r.file, r.offset + (va - r.addr)) }

  /** The page that va lies in has become resident, at its distance from the start of the region. */
  predicate LoadedFrom(r: Region, va: nat, was: map<nat, Origin>, resident: map<nat, Origin>) {
    var page := va - va % 4096;
    && r.used && r.addr <= page < r.addr + r.length
    && resident == was[page := (r.file, r.offset + (page - r.addr))]
  }

  lemma LoadedAt(r: Region, va: nat, was: map<nat, Origin>)
    requires RegionOk(r) && Covers(r, va)
    ensures LoadedFrom(r, va, was, was[Down(va) := PlaceOf(r, Down(va))])
  {
    FaultTest(r, va);
    DownOk(va);
  }

  predicate PageOf(addr: nat, length: nat, va: nat) {
    addr <= va < addr + length && (va - addr) % PGSIZE == 0
  }

  /** What stays resident when the pages that start in the range go, one every PGSIZE bytes. */
  function Kept(resident: map<nat, Origin>, addr: nat, length: nat): map<nat, Origin> {
    map va | va in resident && !PageOf(addr, length, va) :: resident[va]
  }

  lemma KeptNone(resident: map<nat, Origin>, addr: nat)
    ensures Kept(resident, addr, 0) == resident
  {
  }

  lemma RoundAt(addr: nat, k: nat)
    ensures (addr + k * PGSIZE) % PGSIZE == addr % PGSIZE
  {
  }

  /** The pages that start in the first k + 1 rounds are those of the first k and one more. */
  lemma RoundPages(addr: nat, k: nat, va: nat)
    ensures PageOf(addr, (k + 1) * PGSIZE, va) <==> PageOf(addr, k * PGSIZE, va) || va == addr + k * PGSIZE
  {
    if PageOf(addr, (k + 1) * PGSIZE, va) {
      var m := (va - addr) / PGSIZE;
      assert va == addr + m * PGSIZE && (m < k || m == k);
    }
  }

  /** One more round of the loop. */
  lemma RoundStep(resident: map<nat, Origin>, addr: nat, k: nat)
    requires forall va :: va in resident ==> va % PGSIZE == 0
    ensures var va := addr + k * PGSIZE;
            && va % PGSIZE == addr % PGSIZE && (va % PGSIZE == 0 ==> Down(va) == va)
            && (va % PGSIZE != 0 ==> va !in resident && Kept(resident, addr, k * PGSIZE) == resident)
            && Kept(resident, addr, (k + 1) * PGSIZE) == Kept(resident, addr, k * PGSIZE) - {va}
            && (Down(va) in Kept(resident, addr, k * PGSIZE) <==> Down(va) in resident)
  {
    var va := addr + k * PGSIZE;
    RoundAt(addr, k);
    DownOk(va);
    assert !PageOf(addr, k * PGSIZE, va);
    hide Down;
    forall w | w in resident
      ensures PageOf(addr, (k + 1) * PGSIZE, w) <==> PageOf(addr, k * PGSIZE, w) || w == va
      ensures addr % PGSIZE != 0 ==> !PageOf(addr, k * PGSIZE, w)
    {
      RoundPages(addr, k, w);
      if addr <= w { OffGrid(addr, w); }
    }
    hide PageOf;
  }

  lemma KeptEnd(resident: map<nat, Origin>, addr: nat, length: nat, k: nat)
    requires k <= RoundUp(length) / PGSIZE && length <= k * PGSIZE
    ensures k == RoundUp(length) / PGSIZE && Kept(resident, addr, k * PGSIZE) == Kept(resident, addr, length)
  {
  }

  /** The write-backs of the first k pages: resident pages of a shared region, each at the file
      offset it was mapped from. */
  function WriteBacks(r: Region, resident: map<nat, Origin>, addr: nat, k: nat): seq<(nat, Origin)> {
    if k == 0 then []
    else WriteBacks(r, resident, addr, k - 1) +
         var va := addr + (k - 1) * PGSIZE;
         if r.shared && va in resident then [(va, PlaceOf(r, va))] else []
  }

  /** Each write-back is of a resident page of the range, to its place in the region's file. */
  lemma {:induction false} WriteBackAt(r: Region, resident: map<nat, Origin>, addr: nat, k: nat, n: nat)
    requires n < |WriteBacks(r, resident, addr, k)|
    ensures var w := WriteBacks(r, resident, addr, k)[n];
            w.0 in resident && addr <= w.0 < addr + k * PGSIZE && (w.0 - addr) % PGSIZE == 0 && w.1 == PlaceOf(r, w.0)
  {
    if k > 0 {
      RoundAt(0, k - 1);
      if n < |WriteBacks(r, resident, addr, k - 1)| { WriteBackAt(r, resident, addr, k - 1, n); }
    }
  }

  /** Every entry of w from n on is of a resident page and goes where that page was read from. */
  predicate Homeward(w: seq<(nat, Origin)>, n: nat, was: map<nat, Origin>) {
    forall l :: n <= l < |w| ==> w[l].0 in was && w[l].1 == was[w[l].0]
  }

  /** What is written back goes where it was read from. */
  lemma WrittenHome(rs: seq<Region>, j: nat, addr: nat, length: nat, was: map<nat, Origin>, w0: seq<(nat, Origin)>)
    requires AllOk(rs) && AllApart(rs) && AllBacked(rs, was) && j < |rs| && (0 < length ==> Inside(rs[j], addr, length))
    ensures Homeward(w0 + WriteBacks(rs[j], was, addr, RoundUp(length) / PGSIZE), |w0|, was)
  {
    var m := RoundUp(length) / PGSIZE;
    var ws := WriteBacks(rs[j], was, addr, m);
    hide WriteBacks;
    forall n: nat | n < |ws| ensures ws[n].0 in was && ws[n].1 == was[ws[n].0] {
      WriteBackAt(rs[j], was, addr, m, n);
      var va := ws[n].0;
      Grid(length, va - addr);
      var i :| 0 <= i < |rs| && Backed(rs[i], va, was[va]);
      assert Covers(rs[j], va);
      BackedOnce(rs, i, j, va);
    }
  }

  /** A multiple of the page size below the rounded length is below the length. */
  lemma Grid(length: nat, d: nat)
    requires d < RoundUp(length) / PGSIZE * PGSIZE && d % PGSIZE == 0
    ensures d < length
  {
  }

  /** Of the resident pages that start in the range, one every PGSIZE bytes, a shared region's have been
      written back, each once and in order, and a private region's have not; nothing else has. */
  predicate WrittenBack(was: map<nat, Origin>, w0: seq<(nat, Origin)>, w1: seq<(nat, Origin)>,
                        addr: nat, length: int, shared: bool)
  {
    && w0 <= w1 && (!shared ==> w1 == w0)
    && (shared ==> forall va :: va in was && addr <= va < addr + length && (va - addr) % PGSIZE == 0 ==>
                     exists l :: |w0| <= l < |w1| && w1[l].0 == va)
    && (forall l :: |w0| <= l < |w1| ==>
          w1[l].0 in was && addr <= w1[l].0 < addr + length && (w1[l].0 - addr) % PGSIZE == 0)
    && forall l, m :: |w0| <= l < m < |w1| ==> w1[l].0 < w1[m].0
  }

  lemma {:induction false} WritesFound(r: Region, resident: map<nat, Origin>, addr: nat, k: nat, va: nat)
    requires va in resident && addr <= va < addr + k * PGSIZE && (va - addr) % PGSIZE == 0 && r.shared
    ensures exists l :: 0 <= l < |WriteBacks(r, resident, addr, k)| && WriteBacks(r, resident, addr, k)[l].0 == va
  {
    var ws := WriteBacks(r, resident, addr, k);
    var rest := WriteBacks(r, resident, addr, k - 1);
    var last := addr + (k - 1) * PGSIZE;
    if va == last {
      assert ws[|rest|].0 == va;
    } else {
      EarlierPage(addr, k, va);
      WritesFound(r, resident, addr, k - 1, va);
      var l :| 0 <= l < |rest| && rest[l].0 == va;
      assert ws[l].0 == va;
    }
  }

  lemma EarlierPage(addr: nat, k: nat, va: nat)
    requires 0 < k && addr <= va < addr + k * PGSIZE && (va - addr) % PGSIZE == 0 && va != addr + (k - 1) * PGSIZE
    ensures va < addr + (k - 1) * PGSIZE
  {
  }

  lemma {:induction false} WritesRise(r: Region, resident: map<nat, Origin>, addr: nat, k: nat, l: nat, m: nat)
    requires l < m < |WriteBacks(r, resident, addr, k)|
    ensures WriteBacks(r, resident, addr, k)[l].0 < WriteBacks(r, resident, addr, k)[m].0
  {
    var rest := WriteBacks(r, resident, addr, k - 1);
    if m < |rest| {
      WritesRise(r, resident, addr, k - 1, l, m);
    } else {
      WriteBackAt(r, resident, addr, k - 1, l);
    }
  }

  lemma {:induction false} WritesNone(r: Region, resident: map<nat, Origin>, addr: nat, k: nat)
    requires !r.shared
    ensures WriteBacks(r, resident, addr, k) == []
  {
    if k > 0 { WritesNone(r, resident, addr, k - 1); }
  }

  /** The write-backs of the loop are the right ones. */
  lemma WritesAll(r: Region, was: map<nat, Origin>, w0: seq<(nat, Origin)>, addr: nat, length: int)
    ensures WrittenBack(was, w0, w0 + WriteBacks(r, was, addr, RoundUp(Bytes(length)) / PGSIZE), addr, length, r.shared)
  {
    var k := RoundUp(Bytes(length)) / PGSIZE;
    var ws := WriteBacks(r, was, addr, k);
    var w1 := w0 + ws;
    Covered(Bytes(length));
    if !r.shared { WritesNone(r, was, addr, k); }
    hide WriteBacks, RoundUp;
    forall l | |w0| <= l < |w1|
      ensures w1[l].0 in was && addr <= w1[l].0 < addr + length && (w1[l].0 - addr) % PGSIZE == 0
    {
      WriteBackAt(r, was, addr, k, l - |w0|);
      Grid(Bytes(length), w1[l].0 - addr);
    }
    forall l, m | |w0| <= l < m < |w1| ensures w1[l].0 < w1[m].0 { WritesRise(r, was, addr, k, l - |w0|, m - |w0|); }
    if r.shared {
      forall va | va in was && addr <= va < addr + length && (va - addr) % PGSIZE == 0
        ensures exists l :: |w0| <= l < |w1| && w1[l].0 == va
      {
        WritesFound(r, was, addr, k, va);
        var l :| 0 <= l < |ws| && ws[l].0 == va;
        assert w1[|w0| + l].0 == va;
      }
    }
  }

  lemma Covered(length: nat)
    ensures length <= RoundUp(length) / PGSIZE * PGSIZE
  {
  }

  lemma Installed(rs: seq<Region>, slot: nat, v: Region)
    requires slot < |rs| && AllOk(rs) && AllApart(rs) && RegionOk(v) && v.used
    requires forall i :: 0 <= i < |rs| && rs[i].used ==> End(rs[i]) <= v.addr || End(v) <= rs[i].addr
    ensures AllOk(rs[slot := v]) && AllApart(rs[slot := v])
  {
  }

  lemma Shrunk(rs: seq<Region>, j: nat, t: Region)
    requires j < |rs| && AllOk(rs) && AllApart(rs) && RegionOk(t) && rs[j].used
    requires t.used ==> rs[j].addr <= t.addr && End(t) <= End(rs[j])
    ensures AllOk(rs[j := t]) && AllApart(rs[j := t])
  {
  }

  lemma InstalledBacked(rs: seq<Region>, slot: nat, v: Region, resident: map<nat, Origin>)
    requires slot < |rs| && !rs[slot].used && AllBacked(rs, resident)
    ensures AllBacked(rs[slot := v], resident)
  {
    var rs' := rs[slot := v];
    forall va | va in resident ensures exists i :: 0 <= i < |rs'| && Backed(rs'[i], va, resident[va]) {
      var i :| 0 <= i < |rs| && Backed(rs[i], va, resident[va]);
      assert Backed(rs'[i], va, resident[va]);
    }
  }

  lemma FaultBacked(rs: seq<Region>, j: nat, va: nat, resident: map<nat, Origin>)
    requires j < |rs| && Covers(rs[j], va) && va % PGSIZE == 0 && AllBacked(rs, resident)
    ensures AllBacked(rs, resident[va := PlaceOf(rs[j], va)])
  {
    assert Backed(rs[j], va, PlaceOf(rs[j], va));
  }

  /** A page is backed by one region only. */
  lemma BackedOnce(rs: seq<Region>, i: nat, j: nat, va: nat)
    requires AllApart(rs) && i < |rs| && j < |rs| && Covers(rs[i], va) && Covers(rs[j], va)
    ensures i == j
  {
  }

  /** After a cut that leaves an aligned region the kept pages are all backed, unless the loop missed the last. */
  lemma CutBacked(rs: seq<Region>, j: nat, addr: nat, length: nat, now: map<nat, Origin>, was: map<nat, Origin>)
    requires AllOk(rs) && AllApart(rs) && AllBacked(rs, was)
    requires j < |rs| && Cuts(rs[j], addr, length) && WholeHead(rs[j], addr, length)
    requires now == Kept(was, addr, length) && !Faults(was, addr, length)
    ensures AllBacked(rs[j := Trimmed(rs[j], addr, length)], now) <==> !LeftBehind(was, addr, length)
  {
    var t := Trimmed(rs[j], addr, length);
    var rs' := rs[j := t];
    if LeftBehind(was, addr, length) {
      var last := Down(addr + length - 1);
      LastLost(rs[j], addr, length, was);
      forall i | 0 <= i < |rs| ensures !Backed(rs'[i], last, was[last]) {
        if i != j && Covers(rs[i], last) { BackedOnce(rs, i, j, last); }
      }
      assert last in now && !AllBacked(rs', now);
    } else {
      forall va | va in now ensures va % PGSIZE == 0 && exists i :: 0 <= i < |rs'| && Backed(rs'[i], va, now[va]) {
        var i :| 0 <= i < |rs| && Backed(rs[i], va, was[va]);
        if i == j { StillBacked(rs[j], addr, length, was, va); }
        assert Backed(rs'[i], va, now[va]);
      }
    }
  }

  lemma Aligned(a: nat, b: nat)
    requires a % PGSIZE == 0 && b % PGSIZE == 0
    ensures a < b + PGSIZE ==> a <= b
    ensures a > b ==> a >= b + PGSIZE
  {
  }

  lemma OffGrid(addr: nat, va: nat)
    requires va % PGSIZE == 0 && addr <= va
    ensures (va - addr) % PGSIZE == 0 <==> addr % PGSIZE == 0
  {
  }

  /** A cut keeps regions aligned and apart exactly when it is whole at the head. */
  lemma CutRegions(rs: seq<Region>, j: nat, addr: nat, length: nat, was: map<nat, Origin>)
    requires AllOk(rs) && AllApart(rs) && AllBacked(rs, was) && !Faults(was, addr, length)
    requires j < |rs| && Cuts(rs[j], addr, length)
    ensures var rs' := rs[j := Trimmed(rs[j], addr, length)];
            && (AllOk(rs') && AllApart(rs') <==> WholeHead(rs[j], addr, length))
            && (WholeHead(rs[j], addr, length) ==>
                  (AllBacked(rs', Kept(was, addr, length)) <==> !LeftBehind(was, addr, length)))
  {
    hide AllBacked, Kept, Faults, LeftBehind;
    var t := Trimmed(rs[j], addr, length);
    TrimAligned(rs[j], addr, length);
    if WholeHead(rs[j], addr, length) {
      Shrunk(rs, j, t);
      CutBacked(rs, j, addr, length, Kept(was, addr, length), was);
    } else {
      assert !RegionOk(rs[j := t][j]);
    }
  }

  /** With a negative length the region grows and keeps its pages, if it stays aligned. */
  lemma GrownRegions(rs: seq<Region>, j: nat, addr: nat, length: int, was: map<nat, Origin>)
    requires AllOk(rs) && AllApart(rs) && AllBacked(rs, was) && j < |rs| && Cuts(rs[j], addr, length)
    requires -MAXLEN <= length < 0
    ensures 0 <= rs[j].addr + length && length <= rs[j].length
    ensures Kept(was, addr, 0) == was && !LeftBehind(was, addr, 0)
    ensures AllOk(rs[j := Trimmed(rs[j], addr, length)]) ==>
              AllBacked(rs[j := Trimmed(rs[j], addr, length)], Kept(was, addr, 0))
  {
    KeptNone(was, addr);
    CutWithin(rs[j], addr, length);
    var t := Trimmed(rs[j], addr, length);
    var rs' := rs[j := t];
    if AllOk(rs') {
      assert RegionOk(rs'[j]) && RegionOk(rs[j]);
      GrownEnd(rs[j], addr, length);
      hide AllOk, AllApart, RoundUp, Trimmed, RegionOk;
      forall va | va in was ensures va % PGSIZE == 0 && exists i :: 0 <= i < |rs'| && Backed(rs'[i], va, was[va]) {
        var i :| 0 <= i < |rs| && Backed(rs[i], va, was[va]);
        assert Backed(rs'[i], va, was[va]);
      }
    }
  }

  lemma GrownEnd(r: Region, addr: nat, length: int)
    requires RegionOk(r) && Cuts(r, addr, length) && -MAXLEN <= length < 0 && 0 <= r.addr + length
    requires RegionOk(Trimmed(r, addr, length))
    ensures var t := Trimmed(r, addr, length);
            && t.used && t.file == r.file && t.addr <= r.addr && End(r) <= End(t)
            && t.offset - t.addr == r.offset - r.addr
  {
    hide RoundUp;
    var m: nat := -length;
    if addr == r.addr {
      var a: nat := r.addr - m;
      HeadAligned(a, m);
      RoundUpSum(m, r.length);
    } else {
      RoundUpMono(r.length, r.length + m);
    }
  }

  /** The last page of the range is gone from the region but still resident. */
  lemma LastLost(r: Region, addr: nat, length: nat, was: map<nat, Origin>)
    requires RegionOk(r) && Cuts(r, addr, length) && WholeHead(r, addr, length)
    requires !Faults(was, addr, length) && LeftBehind(was, addr, length)
    ensures var last := Down(addr + length - 1);
            && Covers(r, last) && !Covers(Trimmed(r, addr, length), last) && last in Kept(was, addr, length)
  {
    var last := Down(addr + length - 1);
    assert Hit(was, addr, 0) <==> Down(addr) in was;
    assert last != Down(addr);
    hide RoundUp, Down, Faults, Hit;
    TailEnd(r, addr, length);
    LastPage(addr, length, End(Trimmed(r, addr, length)));
  }

  /** If the range is in more than one page, its last page starts at e, the next boundary, or later. */
  lemma LastPage(addr: nat, length: nat, e: nat)
    requires addr % PGSIZE != 0 && 0 < length && Down(addr + length - 1) != Down(addr)
    requires addr <= e < addr + PGSIZE && e % PGSIZE == 0
    ensures var last := Down(addr + length - 1); e <= last < addr + length && (last - addr) % PGSIZE != 0
  {
    var last := Down(addr + length - 1);
    DownOk(addr + length - 1);
    DownOk(addr);
    DownBelow(addr + length - 1, Down(addr));
    hide Down;
    Aligned(last, Down(addr));
    OffGrid(addr, last);
    Aligned(e, Down(addr) + PGSIZE);
  }

  /** Cutting a tail at addr leaves the pages up to the next page boundary. */
  lemma TailEnd(r: Region, addr: nat, length: nat)
    requires RegionOk(r) && Cuts(r, addr, length) && addr != r.addr
    ensures var t := Trimmed(r, addr, length);
            && t.used && t.addr == r.addr && t.offset == r.offset && t.file == r.file
            && addr <= End(t) < addr + PGSIZE && End(t) % PGSIZE == 0
  {
    RoundUpAligned(r.addr, r.length - length, 0);
  }

  /** A resident page of the range that the loop did not meet is the last one. */
  lemma Missed(addr: nat, length: nat, was: map<nat, Origin>, va: nat)
    requires addr % PGSIZE != 0 && va % PGSIZE == 0 && addr <= va < addr + length && va in was
    requires !Faults(was, addr, length)
    ensures LeftBehind(was, addr, length)
  {
    var k: nat := va / PGSIZE - addr / PGSIZE;
    assert Down(addr + k * PGSIZE) == va;
    assert Hit(was, addr, k);
  }

  lemma StillHead(r: Region, length: nat, was: map<nat, Origin>, va: nat)
    requires RegionOk(r) && Cuts(r, r.addr, length) && WholeHead(r, r.addr, length) && va % PGSIZE == 0
    requires va in was && Backed(r, va, was[va]) && va in Kept(was, r.addr, length)
    ensures Backed(Trimmed(r, r.addr, length), va, was[va])
  {
    OffGrid(r.addr, va);
    RoundUpAligned(r.addr, r.length, va);
    hide RoundUp;
    if 0 < length < r.length { TrimHead(r, length); }
  }

  lemma StillBacked(r: Region, addr: nat, length: nat, was: map<nat, Origin>, va: nat)
    requires RegionOk(r) && Cuts(r, addr, length) && WholeHead(r, addr, length) && va in was && va % PGSIZE == 0
    requires !Faults(was, addr, length) && !LeftBehind(was, addr, length)
    requires Backed(r, va, was[va]) && va in Kept(was, addr, length)
    ensures Backed(Trimmed(r, addr, length), va, was[va])
  {
    hide RoundUp, Faults, LeftBehind;
    if addr == r.addr {
      StillHead(r, length, was, va);
    } else {
      TailEnd(r, addr, length);
      RoundUpAligned(r.addr, r.length, va);
      if va >= End(Trimmed(r, addr, length)) {
        OffGrid(addr, va);
        Missed(addr, length, was, va);
      }
    }
  }

  /** Only one region can hold the range, so a refusal by the one found is final. */
  lemma OnlyOne(rs: seq<Region>, j: nat, addr: nat, length: nat)
    requires AllOk(rs) && AllApart(rs) && j < |rs| && Inside(rs[j], addr, length) && !Cuts(rs[j], addr, length)
    ensures forall i :: 0 <= i < |rs| ==> !Cuts(rs[i], addr, length)
  {
  }

  lemma Offsets(addr: nat)
    requires addr % PGSIZE == 0
    ensures Down(addr + 0x800) == addr && Down(addr + 0x10FF) == addr + 0x1000 && Down(addr + 0x1000) == addr + 0x1000
    ensures (addr + 0x800) % PGSIZE != 0
  {
  }

  /** A process's first mapping of 0x1100 bytes. */
  method MapOnce() returns (m: Maps, addr: nat)
    ensures fresh(m) && m.Valid() && m.Inhabited() && m.resident == map[]
    ensures addr % PGSIZE == 0 && m.regions[0] == Region(true, addr, 0x1100, true, 0, 0)
    ensures forall i :: 1 <= i < NVMA ==> !m.regions[i].used
  {
    m := new Maps();
    ghost var none := m.regions;
    assert !none[0].used;
    var r := m.Mmap(0x1100, true, true, 0, 0);
    addr := r;
    ghost var i :| && 0 <= i < NVMA && (forall l :: 0 <= l < i ==> none[l].used)
                   && m.regions == none[i := Region(true, addr, 0x1100, true, 0, 0)];
    assert i == 0;
    assert RegionOk(m.regions[0]);
  }

  /** Of 0x1100 bytes, cutting the last 0x900 leaves the second page mapped in no region. */
  method StaysMapped() returns (m: Maps)
    ensures fresh(m) && m.Valid() && !m.Inhabited()
  {
    var addr;
    m, addr := MapOnce();
    Offsets(addr);
    assert Covers(m.regions[0], addr + 0x1000);
    var ok := m.Fault(addr + 0x1000, true);
    ghost var (was, rs) := (m.resident, m.regions);
    assert was.Keys == {addr + 0x1000};
    assert !Faults(was, addr + 0x800, 0x900) by {
      forall k: nat | k * PGSIZE < 0x900 ensures !Hit(was, addr + 0x800, k) { assert k == 0; }
    }
    assert Cuts(rs[0], addr + 0x800, 0x900);
    var r := m.Munmap(addr + 0x800, 0x900);
    assert r == Done;
    assert forall j :: 0 <= j < NVMA && Cuts(rs[j], addr + 0x800, 0x900) ==> WholeHead(rs[j], addr + 0x800, 0x900);
  }

  /** With the first page resident instead, the same call makes the kernel panic. */
  method Halts() returns (m: Maps, r: Outcome)
    ensures fresh(m) && r == Panicked
  {
    var addr;
    m, addr := MapOnce();
    Offsets(addr);
    assert Covers(m.regions[0], addr);
    DownOk(addr);
    var ok := m.Fault(addr, true);
    assert Hit(m.resident, addr + 0x800, 0);
    assert Cuts(m.regions[0], addr + 0x800, 0x900);
    r := m.Munmap(addr + 0x800, 0x900);
  }

  /** Cutting 0x100 bytes off the head leaves a region that does not start at a page. */
  method Unaligned() returns (m: Maps)
    ensures fresh(m) && !m.Valid()
  {
    var addr;
    m, addr := MapOnce();
    ghost var rs := m.regions;
    assert !Faults(m.resident, addr, 0x100);
    assert Cuts(rs[0], addr, 0x100);
    var r := m.Munmap(addr, 0x100);
    assert forall j :: 0 <= j < NVMA && Cuts(rs[j], addr, 0x100) ==> !WholeHead(rs[j], addr, 0x100);
  }

  /** After two mappings of a page, unmapping -4096 bytes of the first makes it share the page of the second. */
  method Overlaps() returns (m: Maps)
    ensures fresh(m) && !AllApart(m.regions)
  {
    m := new Maps();
    ghost var none := m.regions;
    assert !none[0].used && !none[1].used;
    var r := m.Mmap(0x1000, true, true, 0, 0);
    var a: nat := r;
    ghost var i :| && 0 <= i < NVMA && (forall l :: 0 <= l < i ==> none[l].used)
                   && m.regions == none[i := Region(true, a, 0x1000, true, 0, 0)];
    assert i == 0;
    ghost var one := m.regions;
    assert RegionOk(one[0]) && one[0].used && !one[1].used;
    r := m.Mmap(0x1000, true, true, 0, 0);
    var b: nat := r;
    ghost var j :| && 0 <= j < NVMA && !one[j].used && (forall l :: 0 <= l < j ==> one[l].used)
                   && m.regions == one[j := Region(true, b, 0x1000, true, 0, 0)];
    assert j == 1;
    ghost var two := m.regions;
    assert Apart(two[0], two[1]);
    assert b + 0x1000 == a;
    assert FirstInside(two, a, -0x1000, 0) && Cuts(two[0], a, -0x1000);
    assert !Faults(m.resident, a, 0);
    var u := m.Munmap(a, -0x1000);
    assert !Apart(m.regions[0], m.regions[1]);
  }
}
