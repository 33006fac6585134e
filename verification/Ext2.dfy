/**
 The ext2 driver: allocation, the block tree, file reads and writes, unlink and the
 directory operations, on one mounted volume.
 */
module Ext2 {
  import opened Bytes
  import opened Fs
  import opened Ext2Layout
  import opened Ext2Tree
  import opened Ext2Data
  import opened Ext2Dir
  import opened Ext2Names
  import opened Ext2Links
  import opened Ext2Volume
  import opened Ext2Life

  const MODE_REG: nat := 0x8000
  const MODE_DIR: nat := 0x4000

  /** What path splitting lets through as a component. */
  predicate NameOk(name: Name) {
    1 <= |name| <= 255 && !IsDot(name)
  }

  /** The first byte position whose logical block number does not fit 32 bits. */
  const WRAP: nat := 0x1_0000_0000 * BLOCK

  const SUPER_MAGIC: nat := 0xEF53

  /** What mounting reads: where everything lies, and the free counts. */
  datatype Super = Super(g: Geometry, freeBlocks: nat, freeInodes: nat)

  /** The inode-table pointer as mounting reads it from the group descriptor. */
  function MountTable(gd: Block): nat {
    U32At(gd, 8)
  }

  /** `mount`: the superblock and the group descriptor, checked and parsed. */
  function Mount(sb: Block, gd: Block): (r: Result<Super>)
    ensures r.Ok? ==>
      && r.value.g.blocks == U32At(sb, 4) <= BITS + 1 && r.value.g.inodes == U32At(sb, 0) > 0
      && 0 < r.value.g.blockBitmap < r.value.g.blocks && 0 < r.value.g.inodeBitmap < r.value.g.blocks
      && 0 < r.value.g.inodeTable < r.value.g.blocks && r.value.g.inodeTable == MountTable(gd)
  {
    var inodeSize := if U32At(sb, 76) == 0 then 128 else U16At(sb, 88);
    var blocks, inodes, perGroup := U32At(sb, 4), U32At(sb, 0), U32At(sb, 32);
    var bb, ib, table := U32At(gd, 0), U32At(gd, 4), MountTable(gd);
    if U16At(sb, 56) != SUPER_MAGIC then Err(BadFs)
    else if U32At(sb, 24) != 0 then Err(NotSupported)
    else if U32At(sb, 20) != 1 then Err(BadFs)
    else if inodeSize != 128 then Err(NotSupported)
    else if blocks == 0 || inodes == 0 || perGroup == 0 || U32At(sb, 40) == 0 || perGroup > BITS then Err(BadFs)
    else if (blocks - 1 + perGroup - 1) / perGroup != 1 then Err(NotSupported)
    else if bb == 0 || ib == 0 || table == 0 then Err(BadFs)
    else if bb >= blocks || ib >= blocks || table >= blocks then Err(BadFs)
    else
      OneGroup(blocks - 1, perGroup);
      Ok(Super(Geometry(blocks, inodes, bb, ib, table), U32At(sb, 12), U32At(sb, 16)))
  }

  lemma OneGroup(n: nat, per: nat)
    requires 0 < per && (n + per - 1) / per == 1
    ensures n <= per
  {
    var q, r := (n + per - 1) / per, (n + per - 1) % per;
    assert n + per - 1 == per * q + r;
  }

  class Ext2 {
    const g: Geometry
    var disk: Disk
    var freeBlocks: nat
    var freeInodes: nat
    /** The live inodes, as the driver holds them. */
    ghost var files: map<nat, Inode>
    /** The place of every block that hangs in a tree. */
    ghost var own: map<nat, Place>
    /** The directory that names each inode. */
    ghost var home: map<nat, nat>
    /** Files that may hold more than zeros past their end: a write to them failed half way, or cut them short. */
    ghost var torn: set<nat>

    ghost function V(): Vol
      reads this
    {
      Vol(disk, files, own)
    }

    /** What holds between any two steps of an operation. */
    ghost predicate Inv()
      reads this
    {
      && GeometryOk(g) && |disk| == g.blocks
      && TreeOk(g, V())
      && SpaceOk(g, V(), freeBlocks)
      && freeInodes == |FreeInodes(g, disk)|
    }

    /** The superblock's free counts are the cached ones. */
    ghost predicate Synced()
      reads this
    {
      |disk| > 1 && U32At(disk[1], 12) == freeBlocks && U32At(disk[1], 16) == freeInodes
    }

    /** What holds between operations. */
    ghost predicate Valid()
      reads this
    {
      Inv() && Synced() && VolOk(g, V(), home, torn) && torn <= files.Keys
    }

    /** Mounting a consistent volume. */
    constructor (disk: Disk, ghost files: map<nat, Inode>, ghost own: map<nat, Place>, ghost home: map<nat, nat>, ghost torn: set<nat>)
      requires |disk| >= 3 && Mount(disk[1], disk[2]).Ok?
      requires var m := Mount(disk[1], disk[2]).value; var v := Vol(disk, files, own);
        && GeometryOk(m.g) && |disk| == m.g.blocks && TreeOk(m.g, v) && SpaceOk(m.g, v, m.freeBlocks)
        && m.freeInodes == |FreeInodes(m.g, disk)| && VolOk(m.g, v, home, torn) && torn <= files.Keys
      ensures Valid() && this.disk == disk && this.files == files && this.home == home && this.torn == torn
      ensures g == Mount(disk[1], disk[2]).value.g
    {
      hide TreeOk, SpaceOk, VolOk, FreeInodes;
      var m := Mount(disk[1], disk[2]).value;
      g, freeBlocks, freeInodes := m.g, m.freeBlocks, m.freeInodes;
      this.disk, this.files, this.own, this.home, this.torn := disk, files, own, home, torn;
    }

    /**
     Persist the cached free counts to the superblock and the group descriptor. The descriptor
     words are written over the inode-table pointer, so a later mount finds the table exactly
     when the counts happen to spell its block number.
     */
    method SyncFreeCounts()
      requires |disk| >= 3 && freeBlocks < 0x1_0000_0000 && freeInodes < 0x1_0000_0000
      modifies this`disk
      ensures Synced()
      ensures |disk| == |old(disk)|
      ensures forall b :: 0 <= b < |disk| && b != 1 && b != 2 ==> disk[b] == old(disk)[b]
      ensures MountTable(disk[2]) == freeBlocks % 0x1_0000 + 0x1_0000 * (freeInodes % 0x1_0000)
      ensures MountTable(disk[2]) == g.inodeTable <==> g.inodeTable == freeBlocks % 0x1_0000 + 0x1_0000 * (freeInodes % 0x1_0000)
    {
      var sb: Block := disk[1];
      sb := PutU32(sb, 12, freeBlocks);
      sb := PutU32(sb, 16, freeInodes);
      disk := disk[1 := sb];
      var gd: Block := disk[2];
      gd := PutU16(gd, 8, freeBlocks % 0x1_0000);
      gd := PutU16(gd, 10, freeInodes % 0x1_0000);
      disk := disk[2 := gd];
    }

    /** Take the lowest free block, zeroed. Fails exactly when no block is free. */
    method AllocBlock() returns (r: Result<nat>)
      requires Inv()
      modifies this`disk, this`freeBlocks
      ensures Inv()
      ensures r.Err? <==> old(FreeBlocks(g, disk)) == {}
      ensures r.Err? ==> r.error == NoSpace && disk == old(disk) && freeBlocks == old(freeBlocks)
      ensures r.Ok? ==>
        && Synced()
        && Fresh(g, V(), r.value)
        && r.value in old(FreeBlocks(g, disk))
        && FreeBlocks(g, disk) == old(FreeBlocks(g, disk)) - {r.value}
        && freeBlocks + 1 == old(freeBlocks)
        && SameData(old(V()), V())
        && SameInodeArea(g, old(disk), disk)
        && forall b :: b in own ==> disk[b] == old(disk)[b]
    {
      hide TreeOk, SpaceOk, FreeBlocks, FreeInodes, SameData, SameInodeArea, Fresh, Used;
      if freeBlocks == 0 {
        NoneFree(g, V(), freeBlocks);
        return Err(NoSpace);
      }
      var found, i := FindClear(disk[g.blockBitmap]);
      FoundFree(g, V(), freeBlocks, found, i);
      if !found {
        return Err(NoSpace);
      }
      TakeBlock(i + 1);
      return Ok(i + 1);
    }

    /** Mark a free block used, persist the counts, and zero it. */
    method TakeBlock(block: nat)
      requires Inv() && block in FreeBlocks(g, disk)
      modifies this`disk, this`freeBlocks
      ensures Inv() && Synced() && Fresh(g, V(), block) && freeBlocks + 1 == old(freeBlocks)
      ensures FreeBlocks(g, disk) == old(FreeBlocks(g, disk)) - {block}
      ensures SameData(old(V()), V()) && SameInodeArea(g, old(disk), disk)
      ensures forall b :: b in own ==> disk[b] == old(disk)[b]
    {
      hide TreeOk, SpaceOk, FreeBlocks, FreeInodes, SameData, SameInodeArea, Fresh, Mark;
      ghost var v := V();
      CountsFit(g, disk);
      FreeBounds(g, v, freeBlocks, block);
      disk := disk[g.blockBitmap := Mark(disk[g.blockBitmap], block - 1)];
      freeBlocks := freeBlocks - 1;
      SyncFreeCounts();
      disk := disk[block := ZeroBlock()];
      AllocSpace(g, v, disk, block);
      AllocEffect(g, v, disk, block);
    }

    /** Get, or allocate and link, the block behind top-level pointer `i` of inode `n`. A mapped one costs nothing. */
    method EnsureTop(n: nat, ino: Inode, i: nat) returns (r: Result<nat>, ino': Inode)
      requires Inv() && n in files && files[n] == ino && i < 14
      modifies this`disk, this`freeBlocks, this`files, this`own
      ensures Inv() && (old(Synced()) ==> Synced())
      ensures Extends(g, old(V()), V(), n) && n in files && files[n] == ino'
      ensures r.Err? ==> r.error == NoSpace && FreeBlocks(g, disk) == {} && V() == old(V()) && freeBlocks == old(freeBlocks) && ino' == ino
      ensures r.Ok? ==> r.value == BlockOf(V(), n, TopSlot(i)) != 0
      ensures old(freeBlocks) <= freeBlocks + 1
      ensures old(BlockOf(V(), n, TopSlot(i))) != 0 ==> r.Ok? && V() == old(V()) && freeBlocks == old(freeBlocks) && ino' == ino
    {
      hide Owned, Exact, SameData, Grown, SameInodesBut, SameInodeArea, SpaceKept, FreeNumbers, IsMeta;
      if ino.blocks[i] != 0 {
        ExtendsRefl(g, V(), n);
        return Ok(ino.blocks[i]), ino;
      }
      ghost var v := V();
      var a := AllocBlock();
      if a.Err? {
        ExtendsRefl(g, V(), n);
        return Err(a.error), ino;
      }
      ghost var w := V();
      ino' := ino.(blocks := ino.blocks[i := a.value], sectors := (ino.sectors + 2) % 0x1_0000_0000);
      files := files[n := ino'];
      own := own[a.value := Place(n, TopSlot(i))];
      LinkTopStep(g, v, w, n, i, a.value);
      r := Ok(a.value);
    }

    /** Get, or allocate and link, the block behind pointer `k` of the table block `t`. A mapped one costs nothing. */
    method EnsureSlot(ghost n: nat, t: nat, k: nat) returns (r: Result<nat>)
      requires Inv() && t in own && IsTable(own[t].slot) && own[t].ino == n && k < PTRS
      modifies this`disk, this`freeBlocks, this`own
      ensures Inv() && (old(Synced()) ==> Synced())
      ensures Extends(g, old(V()), V(), n)
      ensures r.Err? ==> r.error == NoSpace && FreeBlocks(g, disk) == {}
      ensures r.Ok? ==> r.value == BlockOf(V(), n, Child(old(own)[t].slot, k)) != 0
      ensures old(freeBlocks) <= freeBlocks + 1
      ensures n in old(files) && old(BlockOf(V(), n, Child(own[t].slot, k))) != 0 ==> r.Ok? && V() == old(V()) && freeBlocks == old(freeBlocks)
    {
      hide Owned, Exact, SameData, Grown, SameInodesBut, SameInodeArea, SpaceKept, FreeNumbers, IsMeta;
      OwnerOf(g, V(), t);
      var tbl := disk[t];
      var existing := U32At(tbl, 4 * k);
      assert BlockOf(V(), n, Child(own[t].slot, k)) == existing;
      if existing != 0 {
        ExtendsRefl(g, V(), n);
        return Ok(existing);
      }
      ghost var v := V();
      var a := AllocBlock();
      if a.Err? {
        ExtendsRefl(g, V(), n);
        return Err(a.error);
      }
      ghost var w := V();
      disk := disk[t := PutU32(tbl, 4 * k, a.value)];
      own := own[a.value := Place(n, Child(own[t].slot, k))];
      LinkTableStep(g, v, w, t, k, a.value);
      r := Ok(a.value);
    }

    /** Make logical block `idx` of inode `n` exist, with any missing tables: at most three blocks, and none if it is there. */
    method EnsureBlock(n: nat, ino: Inode, idx: nat) returns (r: Result<nat>, ino': Inode)
      requires Inv() && n in files && files[n] == ino
      modifies this`disk, this`freeBlocks, this`files, this`own
      ensures Inv() && (old(Synced()) ==> Synced())
      ensures Extends(g, old(V()), V(), n) && n in files && files[n] == ino'
      ensures r.Err? ==> if idx < MAX_BLOCKS then r.error == NoSpace && FreeBlocks(g, disk) == {} else r.error == NotSupported
      ensures r.Err? && idx < DIRECT ==> V() == old(V()) && freeBlocks == old(freeBlocks)
      ensures r.Ok? ==> idx < MAX_BLOCKS && r.value == BlockOf(V(), n, SlotOf(idx)) != 0
      ensures old(freeBlocks) <= freeBlocks + 3
      ensures idx < MAX_BLOCKS && old(BlockOf(V(), n, SlotOf(idx))) != 0 ==> r.Ok? && V() == old(V()) && freeBlocks == old(freeBlocks)
    {
      hide TreeOk, Extends, SpaceOk, FreeBlocks, FreeInodes, At, IsMeta;
      TreeInodes(g, V());
      if idx < DIRECT + PTRS { TablesThere(disk, ino.blocks, idx); }
      if idx < DIRECT {
        r, ino' := EnsureTop(n, ino, idx);
        return;
      }
      var remaining := idx - DIRECT;
      ghost var v := V();
      if remaining < PTRS {
        var t;
        t, ino' := EnsureTop(n, ino, 12);
        if t.Err? { return Err(t.error), ino'; }
        ghost var w := V();
        PlaceOf(g, w, n, SingleTable);
        r := EnsureSlot(n, t.value, remaining);
        ExtendsTrans(g, v, w, V(), n);
        return;
      }
      remaining := remaining - PTRS;
      if remaining < PTRS * PTRS {
        r, ino' := EnsureDouble(n, ino, idx);
        return;
      }
      ExtendsRefl(g, V(), n);
      return Err(NotSupported), ino;
    }

    /** The same behind the double table. */
    method EnsureDouble(n: nat, ino: Inode, idx: nat) returns (r: Result<nat>, ino': Inode)
      requires Inv() && n in files && files[n] == ino && DIRECT + PTRS <= idx < MAX_BLOCKS
      modifies this`disk, this`freeBlocks, this`files, this`own
      ensures Inv() && (old(Synced()) ==> Synced())
      ensures Extends(g, old(V()), V(), n) && n in files && files[n] == ino'
      ensures r.Err? ==> r.error == NoSpace && FreeBlocks(g, disk) == {}
      ensures r.Ok? ==> r.value == BlockOf(V(), n, SlotOf(idx)) != 0
      ensures old(freeBlocks) <= freeBlocks + 3
      ensures old(BlockOf(V(), n, SlotOf(idx))) != 0 ==> r.Ok? && V() == old(V()) && freeBlocks == old(freeBlocks)
    {
      hide TreeOk, Extends, SpaceOk, FreeBlocks, FreeInodes, At, IsMeta, SlotOf;
      ghost var v := V();
      TreeInodes(g, v);
      var k, j := (idx - DIRECT - PTRS) / PTRS, (idx - DIRECT - PTRS) % PTRS;
      DoubleThere(disk, ino.blocks, idx);
      var t;
      t, ino' := EnsureTop(n, ino, 13);
      if t.Err? { return Err(t.error), ino'; }
      ghost var w := V();
      PlaceOf(g, w, n, DoubleTable);
      var mid := EnsureSlot(n, t.value, k);
      ghost var x := V();
      ExtendsTrans(g, v, w, x, n);
      if mid.Err? { return Err(mid.error), ino'; }
      PlaceOf(g, x, n, Mid(k));
      r := EnsureSlot(n, mid.value, j);
      ExtendsTrans(g, v, x, V(), n);
    }

    // ---- files ----

    /** `map_block`: the block behind logical block `idx`, 0 for a hole. */
    method MapBlock(ghost n: nat, ino: Inode, idx: nat) returns (r: Result<nat>)
      requires Inv() && n in files && files[n] == ino
      ensures r == if idx < MAX_BLOCKS then Ok(BlockOf(V(), n, SlotOf(idx))) else Err(NotSupported)
      ensures r.Ok? ==> r.value < |disk|
    {
      hide Owned, Exact, SpaceOk;
      if idx < MAX_BLOCKS && BlockOf(V(), n, SlotOf(idx)) != 0 {
        PlaceOf(g, V(), n, SlotOf(idx));
      }
      if idx < DIRECT {
        return Ok(ino.blocks[idx]);
      }
      var remaining := idx - DIRECT;
      if remaining < PTRS {
        var p := IndirectLookup(n, SingleTable, ino.blocks[12], remaining);
        return Ok(p);
      }
      remaining := remaining - PTRS;
      if remaining < PTRS * PTRS {
        var mid := IndirectLookup(n, DoubleTable, ino.blocks[13], remaining / PTRS);
        var p := IndirectLookup(n, Mid(remaining / PTRS), mid, remaining % PTRS);
        return Ok(p);
      }
      return Err(NotSupported);
    }

    /** `indirect_lookup`: pointer `k` of table `t`, 0 if there is no table. */
    method IndirectLookup(ghost n: nat, ghost s: Slot, t: nat, k: nat) returns (p: nat)
      requires Inv() && n in files && SlotOk(s) && BlockOf(V(), n, s) == t && k < PTRS
      ensures p == Ptr(disk, t, k)
    {
      hide Owned, Exact, SpaceOk;
      if t == 0 {
        return 0;
      }
      PlaceOf(g, V(), n, s);
      var b := disk[t];
      p := U32At(b, 4 * k);
    }

    /** `read_inode_at`: up to `len` bytes from `off`, clamped to the file's size. */
    method ReadInodeAt(ghost n: nat, ino: Inode, off: nat, len: nat) returns (out: seq<byte>)
      requires Inv() && n in files && files[n] == ino && ino.size <= MAX_BYTES
      ensures var c := Content(V(), n);
        out == if off >= |c| then [] else c[off..if off + len <= |c| then off + len else |c|]
    {
      hide Owned, Exact, SpaceOk, SlotOf, DataAt;
      if off >= ino.size || len == 0 {
        return [];
      }
      var end := if off + len <= ino.size then off + len else ino.size;
      out := [];
      while |out| < end - off
        invariant |out| <= end - off
        invariant out == Range(V(), n, off, off + |out|)
      {
        var pos := off + |out|;
        var inoff := pos % BLOCK;
        var take := if BLOCK - inoff <= end - pos then BLOCK - inoff else end - pos;
        var piece := ReadPiece(n, ino, pos, take);
        RangeExtend(V(), n, off, pos, take, piece);
        out := out + piece;
      }
    }

    /** The part of one block: its bytes, or zeros for a hole. */
    method ReadPiece(ghost n: nat, ino: Inode, pos: nat, take: nat) returns (piece: seq<byte>)
      requires Inv() && n in files && files[n] == ino && pos < MAX_BYTES && take <= BLOCK - pos % BLOCK
      ensures piece == DataAt(V(), n, SlotOf(pos / BLOCK))[pos % BLOCK..pos % BLOCK + take]
    {
      hide Owned, Exact, SpaceOk, SlotOf, BlockOf;
      var lblock, inoff := pos / BLOCK, pos % BLOCK;
      var phys := MapBlock(n, ino, lblock);
      if phys.value == 0 {
        piece := seq(take, i => 0);
      } else {
        piece := disk[phys.value][inoff..inoff + take];
      }
    }

    /** `write_inode`: store inode `n`. */
    method WriteInode(n: nat, ino: Inode)
      requires Inv() && n in files && 1 <= n <= g.inodes && InodeOk(ino) && ino.blocks == files[n].blocks
      modifies this`disk, this`files
      ensures Inv() && (old(Synced()) ==> Synced())
      ensures disk == PutInode(g, old(disk), n, ino) && files == old(files)[n := ino]
      ensures forall m, s :: m in files && SlotOk(s) && !IsTable(s) ==> DataAt(V(), m, s) == DataAt(old(V()), m, s)
      ensures FreeBlocks(g, disk) == old(FreeBlocks(g, disk)) && FreeInodes(g, disk) == old(FreeInodes(g, disk))
    {
      hide Owned, Exact, EncodeInode, FreeNumbers, IsMeta, PutInode;
      ghost var v := V();
      StoreInode(g, v, n, ino);
      disk := PutInode(g, disk, n, ino);
      files := files[n := ino];
    }

    /** A failed write drops its copy of inode `n`: the stored inode is the inode. */
    ghost method Abandoned(v: Vol, n: nat)
      requires Inv() && Synced() && |v.d| == g.blocks && TreeOk(g, v) && VolOk(g, v, home, torn) && torn <= v.files.Keys
      requires n in v.files && !IsDirectory(v.files[n]) && Kept(g, v, V(), n) && SameInodesBut(v, V(), n)
      requires forall m, s :: m in v.files && m != n && SlotOk(s) && !IsTable(s) ==> DataAt(V(), m, s) == DataAt(v, m, s)
      modifies this`files, this`own, this`torn
      ensures Valid() && SameBut(v, V(), n) && files == v.files && torn == old(torn) + {n}
    {
      hide Owned, Exact, SpaceOk, VolOk, SlotOf, DataAt, FreeNumbers, IsMeta;
      AbandonOk(g, v, V(), home, torn, n, freeBlocks);
      own := Surviving(V(), v.files);
      files := v.files;
      torn := torn + {n};
    }

    /** The end of `write_at`: grow the size, stamp the times, store the inode. */
    method FinishWrite(n: nat, ino0: Inode, off: nat, buf: seq<byte>, now: nat, ghost v: Vol)
      requires Inv() && Synced() && n in files && files[n] == ino0 && now < 0x1_0000_0000 && buf != []
      requires |v.d| == g.blocks && InodesOk(v) && VolOk(g, v, home, torn) && n in v.files && !IsDirectory(v.files[n]) && torn <= v.files.Keys
      requires off % WRAP + |buf| <= MAX_BYTES && SpaceOk(g, v, |FreeBlocks(g, v.d)|)
      requires Kept(g, v, V(), n) && Wrote(g, v, V(), n, off % WRAP, buf)
      modifies this
      ensures Valid() && home == old(home) && n in files && files[n].mode == ino0.mode && own == old(own) && freeBlocks == old(freeBlocks)
      ensures torn == old(torn) + if Cuts(v.files[n].size, off, off % WRAP, |buf|) then {n} else {}
      ensures Finished(g, v, V(), n, off, buf, old(torn), torn)
    {
      hide TreeOk, SpaceOk, VolOk, DataAt, SameBut, IsMeta, PutInode, Wrote, Laid, Content, Overlay, Stamped, U32At, GapZero,
           FreeInodes, FreeBlocks, Kept, Finished;
      ghost var w := V();
      TreeInodes(g, w);
      SameFile(g, v, w, n, off % WRAP, buf);
      TailOfUntorn(g, v, home, torn, n);
      WrapEnd(off, |buf|);
      var ino := Stamped(ino0, off + |buf|, now);
      WriteInode(n, ino);
      TreeInodes(g, V());
      torn := torn + if Cuts(v.files[n].size, off, off % WRAP, |buf|) then {n} else {};
      FinishedOk(g, v, w, V(), home, old(torn), torn, n, off, buf, freeBlocks);
    }

    /**
     One turn of the write loop: make the block of position `pos` exist, then read, modify
     and write it. `v` is the volume the write began on; `k` bytes of `buf` are down already.
     */
    method WriteChunk(n: nat, ino: Inode, pos: nat, piece: seq<byte>, ghost v: Vol, ghost base: nat, ghost buf: seq<byte>, ghost k: nat)
      returns (r: Result<()>, ino': Inode)
      requires Inv() && Synced() && n in files && files[n] == ino && 0 < |piece| <= BLOCK - pos % BLOCK
      requires k + |piece| <= |buf| && piece == buf[k..k + |piece|]
      requires |v.d| == g.blocks && TreeOk(g, v) && Kept(g, v, V(), n) && Wrote(g, v, V(), n, base, buf[..k])
      requires pos / BLOCK % 0x1_0000_0000 == (base + k) / BLOCK && pos % BLOCK == (base + k) % BLOCK
      modifies this`disk, this`freeBlocks, this`files, this`own
      ensures Inv() && Synced() && Kept(g, v, V(), n)
      ensures r.Err? ==> NoBlock(g, disk, r.error, base + |buf|) && SameInodesBut(v, V(), n) && n in files && files[n] == ino'
      ensures r.Err? ==> forall m, s :: m in v.files && m != n && SlotOk(s) && !IsTable(s) ==> DataAt(V(), m, s) == DataAt(v, m, s)
      ensures r.Ok? ==> n in files && files[n] == ino' && base + k + |piece| <= MAX_BYTES
      ensures r.Ok? ==> Wrote(g, v, V(), n, base, buf[..k + |piece|])
      ensures old(freeBlocks) <= freeBlocks + 3
      ensures Mapped(v, n, base, |buf|) ==> r.Ok? && own == old(own) && freeBlocks == old(freeBlocks)
    {
      hide TreeOk, SpaceOk, SlotOf, DataAt, BlockOf, SameInodesBut, FreeBlocks, FreeInodes, IsMeta, Mapped, Kept, Wrote, Extends, U32At;
      ghost var w := V();
      TreeInodes(g, v);
      TreeInodes(g, w);
      SameFile(g, v, w, n, base, buf[..k]);
      var lblock, inoff := pos / BLOCK % 0x1_0000_0000, pos % BLOCK;
      if Mapped(v, n, base, |buf|) { ChunkMapped(g, v, w, n, base, |buf|, base + k); }
      var phys;
      phys, ino' := EnsureBlock(n, ino, lblock);
      ghost var x := V();
      TreeInodes(g, x);
      KeptExtends(g, v, w, x, n);
      if phys.Err? {
        WroteExtends(g, v, w, x, n, base, buf[..k]);
        return Err(phys.error), ino';
      }
      StorePiece(n, lblock, phys.value, inoff, piece, v, w, base, buf, k);
      r := Ok(());
    }

    /** Read, modify and write the block, which is there by now. */
    method StorePiece(ghost n: nat, ghost lblock: nat, phys: nat, inoff: nat, piece: seq<byte>,
                      ghost v: Vol, ghost w: Vol, ghost base: nat, ghost buf: seq<byte>, ghost k: nat)
      requires Inv() && Synced() && n in files && 0 < |piece| <= BLOCK - inoff
      requires k + |piece| <= |buf| && piece == buf[k..k + |piece|]
      requires |v.d| == |w.d| == g.blocks && Kept(g, v, w, n) && Wrote(g, v, w, n, base, buf[..k]) && Extends(g, w, V(), n)
      requires lblock == (base + k) / BLOCK < MAX_BLOCKS && inoff == (base + k) % BLOCK && BlockOf(V(), n, SlotOf(lblock)) == phys != 0
      modifies this`disk
      ensures Inv() && Synced() && Kept(g, v, V(), n) && Wrote(g, v, V(), n, base, buf[..k + |piece|])
    {
      hide TreeOk, SpaceOk, SlotOf, DataAt, BlockOf, FreeBlocks, FreeInodes, IsMeta, Kept, Wrote, Extends, U32At;
      ghost var x := V();
      TreeInodes(g, x);
      PlaceOf(g, x, n, SlotOf(lblock));
      DataOfBlock(x, n, SlotOf(lblock));
      var bbuf: Block := if |piece| < BLOCK then disk[phys] else ZeroBlock();
      bbuf := Blit(bbuf, inoff, piece);
      disk := disk[phys := bbuf];
      assert bbuf == Blit(DataAt(x, n, SlotOf(lblock)), inoff, piece);
      WroteStep(g, v, w, x, n, base, buf, k, |piece|, lblock, inoff, bbuf);
      KeptStep(g, v, w, x, n, phys, bbuf);
      SameBitmaps(g, x, V(), freeBlocks);
    }

    /**
     `write_at` once the file is resolved. The logical block number is cast to 32 bits, so
     the bytes land at `off % WRAP`; for `off < WRAP` that is `off`. The file then reads as the
     overlay of `buf` on its old content exactly when the gap it jumped over held only zeros,
     which every file has that no write failed on and no write cut short. It takes no block if all
     it touches are there, and then it succeeds; it also does with `Cost` blocks to spare.
     */
    method WriteData(n: nat, ino0: Inode, off: nat, buf: seq<byte>, now: nat) returns (r: Result<nat>)
      requires Valid() && n in files && files[n] == ino0 && !IsDirectory(ino0) && buf != []
      requires off + |buf| < 0x1_0000_0000_0000_0000 && now < 0x1_0000_0000
      modifies this
      ensures Valid() && home == old(home) && SameBut(old(V()), V(), n) && files[n].mode == ino0.mode
      ensures ino0.size <= MAX_BYTES && files[n].size <= MAX_BYTES
      ensures r.Err? ==> NoBlock(g, disk, r.error, off % WRAP + |buf|) && files == old(files) && torn == old(torn) + {n}
      ensures r.Ok? ==>
        && r.value == |buf| && off % WRAP + |buf| <= MAX_BYTES
        && Laid(old(V()), V(), n, off % WRAP, buf)
        && torn == (if Cuts(ino0.size, off, off % WRAP, |buf|) then old(torn) + {n} else old(torn))
        && Conserved(g, old(V()), V(), n) && FreeInodes(g, disk) == old(FreeInodes(g, disk))
        && Written(V(), n, old(Content(V(), n)), off, buf, GapZero(old(V()), n, off % WRAP))
        && (n !in old(torn) ==> GapZero(old(V()), n, off % WRAP))
      ensures r.Ok? && off < WRAP && n !in old(torn) ==> n !in torn && Content(V(), n) == Overlay(old(Content(V(), n)), off, buf)
      ensures old(freeBlocks) <= freeBlocks + Cost(|buf|)
      ensures r.Err? && off % WRAP + |buf| <= MAX_BYTES ==> old(freeBlocks) <= Cost(|buf|)
      ensures Mapped(old(V()), n, off % WRAP, |buf|) ==> r.Ok? && own == old(own) && FreeBlocks(g, disk) == old(FreeBlocks(g, disk))
    {
      hide Written, GapZero, FreeInodes, FreeBlocks, TreeOk, SpaceOk, VolOk, DataAt, SameInodesBut, IsMeta, Wrote, Kept, Laid, Content, Overlay, U32At,
           TailZero, Conserved, SameBut, Mapped, Cost;
      ghost var v := V();
      TreeInodes(g, v);
      SpaceCount(g, v, freeBlocks);
      TailOfUntorn(g, v, home, torn, n);
      var laid, ino := LayBytes(n, ino0, off, buf, v);
      if laid.Err? {
        SpaceCount(g, V(), freeBlocks);
        Abandoned(v, n);
        return Err(laid.error);
      }
      SameFile(g, v, V(), n, off % WRAP, buf);
      FinishWrite(n, ino, off, buf, now, v);
      if own == v.own { SameFreeSet(g, v, V(), n, freeBlocks); }
      r := Ok(|buf|);
    }

    /** The write loop: block by block until the buffer is down or a block cannot be had. */
    method LayBytes(n: nat, ino0: Inode, off: nat, buf: seq<byte>, ghost v: Vol) returns (r: Result<()>, ino: Inode)
      requires Inv() && Synced() && n in files && files[n] == ino0 && buf != [] && v == V()
      modifies this`disk, this`freeBlocks, this`files, this`own
      ensures Inv() && Synced() && n in files && files[n] == ino && Kept(g, v, V(), n)
      ensures r.Err? ==> NoBlock(g, disk, r.error, off % WRAP + |buf|) && SameInodesBut(v, V(), n)
      ensures r.Err? ==> forall m, s :: m in v.files && m != n && SlotOk(s) && !IsTable(s) ==> DataAt(V(), m, s) == DataAt(v, m, s)
      ensures r.Ok? ==> off % WRAP + |buf| <= MAX_BYTES && Wrote(g, v, V(), n, off % WRAP, buf)
      ensures old(freeBlocks) <= freeBlocks + Cost(|buf|)
      ensures Mapped(v, n, off % WRAP, |buf|) ==> r.Ok? && own == v.own && freeBlocks == old(freeBlocks)
    {
      hide TreeOk, SpaceOk, DataAt, SameInodesBut, FreeBlocks, FreeInodes, IsMeta, Wrote, Kept, U32At, Mapped, Turns, Cost;
      TreeInodes(g, v);
      ghost var base := off % WRAP;
      ino := ino0;
      var written := 0;
      ghost var turns := 0;
      WroteNothing(g, v, n, base);
      KeptRefl(g, v, n);
      NoTurns(off, |buf|);
      while written < |buf|
        invariant 0 <= written <= |buf| && old(freeBlocks) <= freeBlocks + 3 * turns
        invariant Turns(off, |buf|, written, turns)
        invariant Mapped(v, n, base, |buf|) ==> own == v.own && freeBlocks == old(freeBlocks)
        invariant Inv() && Synced() && n in files && files[n] == ino
        invariant Kept(g, v, V(), n) && Wrote(g, v, V(), n, base, buf[..written])
        invariant written > 0 ==> base + written <= MAX_BYTES
      {
        var pos := off + written;
        var inoff := pos % BLOCK;
        var take := if BLOCK - inoff <= |buf| - written then BLOCK - inoff else |buf| - written;
        WrapBlock(off, written);
        TurnTaken(off, |buf|, written, turns);
        r, ino := WriteChunk(n, ino, pos, buf[written..written + take], v, base, buf, written);
        if r.Err? {
          return;
        }
        written := written + take;
        turns := turns + 1;
      }
      TurnsDone(off, |buf|, turns);
      assert buf[..|buf|] == buf;
      r := Ok(());
    }

    // ---- directories ----

    /**
     `dir_entries`: every record of directory `n`, free slots included. Holes are skipped; the
     directory is rejected exactly when a block in it has a record of bad length.
     */
    method DirEntries(ghost n: nat, dir: Inode) returns (r: Result<seq<Rec>>)
      requires Inv() && n in files && files[n] == dir && dir.size <= MAX_BYTES
      ensures DirTiled(Content(V(), n)) ==> r == Ok(Entries(Content(V(), n)))
      ensures r.Err? <==> exists l :: 0 <= l < dir.size / BLOCK && BadBlock(V(), n, l)
      ensures r.Err? ==> r.error == BadFs
    {
      hide Owned, Exact, SpaceOk, SlotOf, Tiles, Recs, Content, Chunk, DataAt, Walks, DirTiled, Entries, EntriesTo, BadBlock;
      ghost var c := Content(V(), n);
      var out: seq<Rec> := [];
      EntriesNone(c);
      for lblock := 0 to dir.size / BLOCK
        invariant DirTiled(c) ==> out == EntriesTo(c, lblock)
        invariant forall l :: 0 <= l < lblock ==> !BadBlock(V(), n, l)
      {
        var phys := MapBlock(n, dir, lblock);
        DirBlock(V(), n, lblock);
        if phys.value == 0 {
          continue;
        }
        DataOfBlock(V(), n, SlotOf(lblock));
        var block := ParseBlock(disk[phys.value], BLOCK * lblock);
        if block.Err? {
          return Err(block.error);
        }
        out := out + block.value;
      }
      AllEntries(c);
      return Ok(out);
    }

    /** `lookup_in`: the inode number the first live record called `name` holds. */
    method LookupIn(ghost n: nat, dir: Inode, name: Name) returns (r: Option<nat>)
      requires Inv() && n in files && files[n] == dir && dir.size <= MAX_BYTES && DirTiled(Content(V(), n))
      ensures r.Some? <==> name in DirMap(V(), n)
      ensures r.Some? ==> r.value == DirMap(V(), n)[name] && r.value != 0
    {
      hide Owned, Exact, SpaceOk, Content, DirTiled;
      var entries := DirEntries(n, dir);
      var es := entries.value;
      var i := 0;
      assert es[0..] == es;
      while i < |es|
        invariant 0 <= i <= |es|
        invariant name in NameMap(Live(es)) <==> name in NameMap(Live(es[i..]))
        invariant name in NameMap(Live(es)) ==> NameMap(Live(es))[name] == NameMap(Live(es[i..]))[name]
      {
        LookupStep(es[i..], name);
        assert es[i..][1..] == es[i + 1..];
        if es[i].ino != 0 && es[i].name == name {
          return Some(es[i].ino);
        }
        i := i + 1;
      }
      return None;
    }

    /** `add_dir_entry`: split the first record with room, or add a block. */
    method AddDirEntry(n: nat, dir: Inode, name: Name, target: nat) returns (r: Result<()>)
      requires Inv() && n in files && files[n] == dir && dir.size <= MAX_BYTES && 1 <= n <= g.inodes
      requires DirTiled(Content(V(), n)) && TailZero(V(), n) && InodeAt(g, disk, n) == dir
      requires 0 < target < 0x1_0000_0000 && |name| <= 255
      modifies this`disk, this`freeBlocks, this`files, this`own
      ensures Inv() && (old(Synced()) ==> Synced())
      ensures r.Ok? ==> Added(g, old(V()), V(), n, name, target) && Conserved(g, old(V()), V(), n)
      ensures r.Err? ==> NoBlock(g, disk, r.error, dir.size + BLOCK) && files == old(files)
      ensures r.Err? ==> SameData(old(V()), V()) && SameInodeArea(g, old(disk), disk)
      ensures old(freeBlocks) <= freeBlocks + 3
    {
      hide Owned, Exact, SpaceOk, SlotOf, Content, DirTiled, TailZero, InodeAt, Added, Entries, DataAt, BlockOf, Span, FreeNumbers, IsMeta,
           SplitBytes, Avail, FirstFit;
      ghost var v := V();
      ghost var c := Content(v, n);
      var need := Span(name);
      var entries := DirEntries(n, dir);
      var es := entries.value;
      var i := FirstFit(es, need);
      if i < |es| {
        AddedInPlace(g, v, n, c, i, name, target);
        var e := es[i];
        var phys := MapBlock(n, dir, e.off / BLOCK);
        disk := disk[phys.value := SplitBytes(disk[phys.value], e.off % BLOCK, e, name, target)];
        NotMetaWrite(g, v.d, phys.value, disk[phys.value]);
        SameBitmaps(g, v, V(), freeBlocks);
        SameConserved(g, v, v, V(), n);
        return Ok(());
      }
      r := AddBlock(n, dir, name, target);
    }

    /** The last case of `add_dir_entry`: no record has room, so the directory grows by a block. */
    method AddBlock(n: nat, dir: Inode, name: Name, target: nat) returns (r: Result<()>)
      requires Inv() && n in files && files[n] == dir && dir.size <= MAX_BYTES && 1 <= n <= g.inodes
      requires DirTiled(Content(V(), n)) && TailZero(V(), n) && InodeAt(g, disk, n) == dir
      requires 0 < target < 0x1_0000_0000 && |name| <= 255
      requires FirstFit(Entries(Content(V(), n)), Span(name)) == |Entries(Content(V(), n))|
      modifies this`disk, this`freeBlocks, this`files, this`own
      ensures Inv() && (old(Synced()) ==> Synced())
      ensures r.Ok? ==> Added(g, old(V()), V(), n, name, target) && Conserved(g, old(V()), V(), n)
      ensures r.Err? ==> NoBlock(g, disk, r.error, dir.size + BLOCK) && files == old(files)
      ensures r.Err? ==> SameData(old(V()), V()) && SameInodeArea(g, old(disk), disk)
      ensures old(freeBlocks) <= freeBlocks + 3
    {
      hide Owned, Exact, SpaceOk, SlotOf, Content, TailZero, InodeAt, Added, Entries, DataAt, BlockOf, Span, FreeNumbers, IsMeta,
           FirstFit, PutInode, WriteEntry, SameData, SpaceKept, Grown, SameInodeArea, JoinedOnly, Conserved, FreeBlocks;
      ghost var v := V();
      SpaceCount(g, v, freeBlocks);
      var lblock := dir.size / BLOCK;
      var phys, dir' := EnsureBlock(n, dir, lblock);
      ghost var w := V();
      if phys.Err? {
        AbandonExtends(g, v, w, n, freeBlocks);
        files := v.files;
        own := Surviving(w, v.files);
        return Err(phys.error);
      }
      assert dir.size == BLOCK * lblock;
      FillBlock(n, dir', phys.value, name, target, v);
      ExtendsConserves(g, v, w, V(), n, freeBlocks);
      return Ok(());
    }

    /** The new directory block `phys` gets one record that fills it, and the inode its size. */
    method FillBlock(n: nat, dir: Inode, phys: nat, name: Name, target: nat, ghost v: Vol)
      requires Inv() && |v.d| == g.blocks && TreeOk(g, v) && n in v.files && v.files[n].size + BLOCK <= MAX_BYTES && 1 <= n <= g.inodes
      requires DirTiled(Content(v, n)) && TailZero(v, n) && v.files[n].size % BLOCK == 0
      requires 0 < target < 0x1_0000_0000 && |name| <= 255
      requires FirstFit(Entries(Content(v, n)), Span(name)) == |Entries(Content(v, n))|
      requires Extends(g, v, V(), n) && n in files && files[n] == dir
      requires phys == BlockOf(V(), n, SlotOf(v.files[n].size / BLOCK)) != 0
      modifies this`disk, this`files
      ensures Inv() && (old(Synced()) ==> Synced()) && Added(g, v, V(), n, name, target)
      ensures FreeBlocks(g, disk) == old(FreeBlocks(g, disk))
    {
      hide Owned, Exact, SpaceOk, SlotOf, Content, TailZero, InodeAt, Added, Entries, DataAt, BlockOf, Span, FreeNumbers, IsMeta,
           FirstFit, PutInode, WriteEntry, SpaceKept, Grown, SameInodeArea, JoinedOnly;
      ghost var w := V();
      PlaceOf(g, w, n, SlotOf(v.files[n].size / BLOCK));
      WriteInode(n, dir.(size := dir.size + BLOCK));
      ghost var x := V();
      OwnerOf(g, x, phys);
      AddedBlock(g, v, w, x, n, name, target);
      disk := disk[phys := WriteEntry(ZeroBlock(), 0, target, name, BLOCK)];
      NotMetaWrite(g, x.d, phys, disk[phys]);
      SameBitmaps(g, x, V(), freeBlocks);
    }

    // ---- inodes ----

    /** Take the lowest free inode number. Fails exactly when none is free. */
    method AllocInode() returns (r: Result<nat>)
      requires Inv()
      modifies this`disk, this`freeInodes
      ensures Inv()
      ensures r.Err? <==> old(FreeInodes(g, disk)) == {}
      ensures r.Err? ==> r.error == NoSpace && disk == old(disk) && freeInodes == old(freeInodes)
      ensures r.Ok? ==> Synced() && r.value in old(FreeInodes(g, disk)) && FreeInodes(g, disk) == old(FreeInodes(g, disk)) - {r.value}
      ensures forall b :: 0 <= b < |disk| && b != 1 && b != 2 && b != g.inodeBitmap ==> disk[b] == old(disk)[b]
    {
      hide Owned, Exact, SpaceOk, FreeNumbers, IsMeta, FreeBlocks, SameData, Mark, Unmark;
      if freeInodes == 0 {
        return Err(NoSpace);
      }
      ghost var v := V();
      CountsFit(g, disk);
      FreeCountFits(g, v, freeBlocks);
      var bits := disk[g.inodeBitmap];
      var found, i := FindClear(bits);
      LowestIsInVolume(bits, g.inodes, found, i);
      if !found {
        return Err(NoSpace);
      }
      MarkTakesOne(bits, g.inodes, i + 1);
      disk := disk[g.inodeBitmap := Mark(bits, i)];
      freeInodes := freeInodes - 1;
      SyncFreeCounts();
      MetaOnly(g, v, disk, freeBlocks);
      return Ok(i + 1);
    }

    /** `free_inode`: clear the bit of inode `t` and sync the counts. */
    method FreeInode(t: nat)
      requires Inv() && 1 <= t <= g.inodes && t !in FreeInodes(g, disk)
      modifies this`disk, this`freeInodes
      ensures Inv() && Synced() && FreeInodes(g, disk) == old(FreeInodes(g, disk)) + {t} && SameData(old(V()), V())
      ensures forall b :: 0 <= b < |disk| && b != 1 && b != 2 && b != g.inodeBitmap ==> disk[b] == old(disk)[b]
    {
      hide Owned, Exact, SpaceOk, FreeNumbers, IsMeta, FreeBlocks, SameData, Mark, Unmark;
      ghost var v := V();
      CountsFit(g, disk);
      FreeCountFits(g, v, freeBlocks);
      var bits := disk[g.inodeBitmap];
      NotFree(bits, g.inodes, t);
      UnmarkReturnsOne(bits, g.inodes, t);
      if Used(bits, t - 1) {
        bits := Unmark(bits, t - 1);
        freeInodes := freeInodes + 1;
      }
      disk := disk[g.inodeBitmap := bits];
      CountsFit(g, disk);
      SyncFreeCounts();
      MetaOnly(g, v, disk, freeBlocks);
    }

    /** `collect_blocks`: every block of the tree of `t`, each once. */
    method CollectBlocks(t: nat, ino: Inode) returns (out: seq<nat>)
      requires Inv() && t in files && files[t] == ino
      ensures NoDuplicates(out) && forall b :: b in out <==> b in Reach(V(), t)
    {
      hide Owned, Exact, SpaceOk, NoDuplicates, Collected, At;
      ghost var v := V();
      out := [];
      CollectNone(v, t);
      for i := 0 to DIRECT
        invariant Collected(v, t, out, i)
      {
        CollectStep(g, v, t, out, Direct(i));
        assert BlockOf(v, t, Direct(i)) == ino.blocks[i] by { AtTop(v, t, i); }
        if ino.blocks[i] != 0 {
          out := out + [ino.blocks[i]];
        }
      }
      AtTop(v, t, 12);
      AtTop(v, t, 13);
      if ino.blocks[12] != 0 {
        out := CollectTable(t, SingleTable, ino.blocks[12], out);
        out := out + [ino.blocks[12]];
      } else {
        HolesUnder(v, t);
        CollectSkip(v, t, out, 12, 269);
      }
      if ino.blocks[13] != 0 {
        out := CollectDouble(t, ino.blocks[13], out);
        CollectStep(g, v, t, out, DoubleTable);
        out := out + [ino.blocks[13]];
      } else {
        HolesUnder(v, t);
        CollectSkip(v, t, out, 269, ALL_SLOTS);
      }
      CollectAll(g, v, t, out);
      NoDuplicatesOf(v, t, out);
    }

    /** One pointer table: its non-zero pointers, then the table itself is next. */
    method CollectTable(t: nat, ghost s: Slot, tbl: nat, out0: seq<nat>) returns (out: seq<nat>)
      requires Inv() && t in files && (s == SingleTable || (s.Mid? && SlotOk(s)))
      requires BlockOf(V(), t, s) == tbl != 0 && Collected(V(), t, out0, Rank(Child(s, 0)))
      ensures Collected(V(), t, out, Rank(s))
      ensures Collected(V(), t, out + [tbl], Rank(s) + 1)
    {
      hide Owned, Exact, SpaceOk, Collected;
      PlaceOf(g, V(), t, s);
      out := out0;
      var b := disk[tbl];
      for k := 0 to PTRS
        invariant Collected(V(), t, out, Rank(Child(s, 0)) + k)
      {
        CollectStep(g, V(), t, out, Child(s, k));
        var p := U32At(b, 4 * k);
        if p != 0 {
          out := out + [p];
        }
      }
      CollectStep(g, V(), t, out, s);
    }

    /** The double-indirect table: each inner table's pointers, then the inner table. */
    method CollectDouble(t: nat, tbl: nat, out0: seq<nat>) returns (out: seq<nat>)
      requires Inv() && t in files && BlockOf(V(), t, DoubleTable) == tbl != 0 && Collected(V(), t, out0, 269)
      ensures Collected(V(), t, out, Rank(DoubleTable))
    {
      hide Owned, Exact, SpaceOk, Collected;
      PlaceOf(g, V(), t, DoubleTable);
      out := out0;
      var l1 := disk[tbl];
      for k := 0 to PTRS
        invariant Collected(V(), t, out, 269 + 257 * k)
      {
        var mid := U32At(l1, 4 * k);
        assert BlockOf(V(), t, Mid(k)) == mid;
        if mid == 0 {
          HolesUnderMid(V(), t, k);
          CollectSkip(V(), t, out, 269 + 257 * k, 269 + 257 * (k + 1));
          continue;
        }
        out := CollectTable(t, Mid(k), mid, out);
        out := out + [mid];
      }
    }

    ghost method Dropped(v: Vol, t: nat)
      requires v == Vol(v.d, files, own)
      modifies this`files, this`own
      ensures V() == Drop(v, disk, t) && files == v.files - {t}
    {
      files := v.files - {t};
      own := Drop(v, disk, t).own;
    }

    /** `free_inode_blocks`: return every block of the tree of `t` to the bitmap. */
    method FreeInodeBlocks(t: nat, ino: Inode)
      requires Inv() && t in files && files[t] == ino
      modifies this`disk, this`freeBlocks, this`files, this`own
      ensures Inv() && V() == Drop(old(V()), disk, t) && files == old(files) - {t}
      ensures forall b :: 0 <= b < |disk| && b != g.blockBitmap ==> disk[b] == old(disk)[b]
      ensures FreeBlocks(g, disk) == old(FreeBlocks(g, disk)) + Reach(old(V()), t)
      ensures forall m, s :: m in files && SlotOk(s) && !IsTable(s) ==> DataAt(V(), m, s) == DataAt(old(V()), m, s)
    {
      hide Owned, Exact, IsMeta, FreeNumbers, InodesOk, NoDuplicates, SpaceOk, Drop, Reach;
      ghost var v := V();
      var list := CollectBlocks(t, ino);
      if list == [] {
        DropEmpty(g, v, t, list, freeBlocks);
        Dropped(v, t);
        return;
      }
      var bits := disk[g.blockBitmap];
      ReachInVolume(g, v, t);
      SpaceCount(g, v, freeBlocks);
      bits, freeBlocks := ClearBits(bits, list, g.blocks - 1, freeBlocks);
      disk := disk[g.blockBitmap := bits];
      DroppedSpace(g, v, disk, t, list);
      Dropped(v, t);
    }

    // ---- operations ----

    /** Allocate an inode number for `ino`, a file without pointers that is not stored yet. */
    method TakeInode(ino: Inode) returns (r: Result<nat>)
      requires Valid() && InodeOk(ino) && NoPointers(ino)
      modifies this`disk, this`freeInodes, this`files
      ensures Inv()
      ensures r.Err? ==> r.error == NoSpace && FreeInodes(g, disk) == {} && V() == old(V()) && freeInodes == old(freeInodes)
      ensures r.Ok? ==>
        && Synced() && r.value in old(FreeInodes(g, disk)) && r.value !in old(files) && 1 <= r.value <= g.inodes
        && files == old(files)[r.value := ino] && FreeInodes(g, disk) == old(FreeInodes(g, disk)) - {r.value}
        && (forall m, s :: m in old(files) && SlotOk(s) && !IsTable(s) ==> DataAt(V(), m, s) == DataAt(old(V()), m, s))
        && (forall s :: SlotOk(s) ==> BlockOf(V(), r.value, s) == 0)
      ensures forall b :: 0 <= b < |disk| && b != 1 && b != 2 && b != g.inodeBitmap ==> disk[b] == old(disk)[b]
    {
      hide Owned, Exact, SpaceOk, VolOk, DataAt, BlockOf, FreeNumbers, IsMeta, U32At, NoPointers, SameData;
      ghost var v := V();
      var a := AllocInode();
      if a.Err? {
        return a;
      }
      FreshNumber(g, v, home, torn, a.value);
      ghost var w := V();
      OwnedAside(g, v, disk);
      NewFile(g, v, disk, a.value, ino);
      files := files[a.value := ino];
      SameBitmaps(g, w, V(), freeBlocks);
      return a;
    }

    /** Allocate an inode number and store an empty regular file under it. */
    method NewInode(ghost p: nat, ino: Inode) returns (r: Result<nat>)
      requires Valid() && InodeOk(ino) && NoPointers(ino) && ino.size == 0 && !IsDirectory(ino)
      modifies this`disk, this`freeInodes, this`files, this`home
      ensures Valid()
      ensures r.Err? ==> r.error == NoSpace && FreeInodes(g, disk) == {} && V() == old(V()) && home == old(home)
      ensures r.Ok? ==>
        && Joined(old(V()), V(), r.value) && r.value != 0 && files[r.value] == ino && home == old(home)[r.value := p]
        && own == old(own) && FreeBlocks(g, disk) == old(FreeBlocks(g, disk))
        && r.value !in old(torn) && r.value in old(FreeInodes(g, disk)) && FreeInodes(g, disk) == old(FreeInodes(g, disk)) - {r.value}
        && (forall m :: m in old(files) ==> Unchanged(old(V()), V(), m))
    {
      hide Owned, Exact, SpaceOk, VolOk, SlotOf, DataAt, BlockOf, FreeNumbers, IsMeta, PutInode, ByteAt, TailZero, Content, InodeAt, FreeBlocks, SameData,
           Joined, Unchanged, FreeInodes, NoPointers;
      ghost var v := V();
      var a := TakeInode(ino);
      SameBlockBitmap(g, v.d, disk);
      if a.Err? {
        return a;
      }
      StoreEmpty(a.value, ino, p, v);
      return a;
    }

    /** Store the inode of a file that was just given number `t`. */
    method StoreEmpty(t: nat, ino: Inode, ghost p: nat, ghost v: Vol)
      requires Inv() && Synced() && |v.d| == g.blocks && InodesOk(v) && VolOk(g, v, home, torn) && torn <= v.files.Keys
      requires InodeOk(ino) && NoPointers(ino) && ino.size == 0 && !IsDirectory(ino)
      requires t in FreeInodes(g, v.d) && 1 <= t <= g.inodes && files == v.files[t := ino] && FreeInodes(g, disk) == FreeInodes(g, v.d) - {t}
      requires forall b :: 0 <= b < g.blocks && b != 1 && b != 2 && b != g.inodeBitmap ==> disk[b] == v.d[b]
      requires forall m, s :: m in v.files && SlotOk(s) && !IsTable(s) ==> DataAt(V(), m, s) == DataAt(v, m, s)
      requires forall s :: SlotOk(s) ==> BlockOf(V(), t, s) == 0
      modifies this`disk, this`files, this`home
      ensures Valid() && Joined(v, V(), t) && files[t] == ino && t !in torn
      ensures home == old(home)[t := p]
      ensures FreeBlocks(g, disk) == old(FreeBlocks(g, disk)) && FreeInodes(g, disk) == old(FreeInodes(g, disk))
      ensures forall m :: m in v.files ==> Unchanged(v, V(), m)
    {
      hide Owned, Exact, SpaceOk, VolOk, DataAt, BlockOf, FreeNumbers, IsMeta, PutInode, TailZero, Content, InodeAt, FreeBlocks,
           Joined, Unchanged, FreeInodes, NoPointers, U32At;
      ghost var w := V();
      FreshNumber(g, v, home, torn, t);
      assert torn - {t} == torn;
      WriteInode(t, ino);
      BornEmpty(g, v, w, V(), home, torn, t, p, ino);
      home := home[t := p];
      JoinedUnchanged(v, V(), t);
    }

    /** Put `name -> t` into directory `p`, where `t` is a file that just joined the volume `v`. */
    method Attach(p: nat, dir: Inode, name: Name, t: nat, ghost v: Vol, ghost home0: map<nat, nat>) returns (r: Result<()>)
      requires Valid() && InodesOk(v) && Joined(v, V(), t) && 0 < t < 0x1_0000_0000 && home == home0[t := p]
      requires p in v.files && v.files[p] == dir && IsDirectory(dir) && DirOk(v, home0, p) && Unchanged(v, V(), p)
      requires NameOk(name) && name !in DirMap(v, p)
      modifies this`disk, this`freeBlocks, this`files, this`own
      ensures Valid() && SameBut(old(V()), V(), p)
      ensures files[p].mode == dir.mode && files[p].size <= MAX_BYTES && DirTiled(Content(V(), p))
      ensures r.Err? ==> NoBlock(g, disk, r.error, dir.size + BLOCK) && Unchanged(old(V()), V(), p)
      ensures r.Ok? ==> DirMap(V(), p) == DirMap(v, p)[name := t]
      ensures r.Ok? ==> Conserved(g, old(V()), V(), p) && FreeInodes(g, disk) == old(FreeInodes(g, disk))
      ensures old(freeBlocks) <= freeBlocks + 3
    {
      hide Owned, Exact, SpaceOk, VolOk, SlotOf, DataAt, BlockOf, FreeNumbers, IsMeta, ByteAt, TailZero, Content, DirTiled,
           Entries, NameMap, Live, Added, InodeAt, FreeBlocks, SameData, DirMap, ListOk, Joined, Conserved;
      ghost var u := V();
      PartsOf(g, u, home, torn, p);
      r := AddDirEntry(p, dir, name, t);
      if r.Err? {
        SameInodeAreaSame(g, u.d, disk);
        VolOkSame(g, u, V(), home, torn);
        SameDataSameBut(u, V(), p);
      } else {
        JoinedModes(v, u, t);
        NamedOk(g, v, u, V(), home0, torn, t, p, name);
        AddedSame(g, u, V(), p, name, t);
      }
      PartsOf(g, V(), home, torn, p);
    }

    /** `create_in`: a new empty regular file called `name` in directory `p`. */
    method CreateIn(p: nat, dir: Inode, name: Name, now: nat) returns (r: Result<nat>, ino: Inode)
      requires Valid() && p in files && files[p] == dir && IsDirectory(dir) && NameOk(name) && now < 0x1_0000_0000
      requires DirOk(V(), home, p) && name !in DirMap(V(), p)
      modifies this`disk, this`freeBlocks, this`freeInodes, this`files, this`own, this`home
      ensures Valid() && OthersKept(old(V()), V(), {p})
      ensures p in files && files[p].mode == dir.mode && files[p].size <= MAX_BYTES && DirTiled(Content(V(), p))
      ensures r.Err? ==> NoRoom(g, disk, r.error, dir.size + BLOCK) && Unchanged(old(V()), V(), p)
      ensures r.Err? && dir.size + BLOCK <= MAX_BYTES ==> old(FreeInodes(g, disk)) == {} || old(freeBlocks) <= 3
      ensures old(freeBlocks) <= freeBlocks + 3
      ensures r.Ok? ==>
        && r.value !in old(files) && files.Keys == old(files).Keys + {r.value}
        && files[r.value] == ino && !IsDirectory(ino) && ino.size == 0 && r.value !in torn
        && DirMap(V(), p) == old(DirMap(V(), p))[name := r.value]
        && Conserved(g, old(V()), V(), p) && Reach(V(), r.value) == {}
        && r.value in old(FreeInodes(g, disk)) && FreeInodes(g, disk) == old(FreeInodes(g, disk)) - {r.value}
    {
      hide Owned, Exact, SpaceOk, VolOk, FreeInodes, IsMeta, Content, DirTiled, DataAt, DirMap, ListOk, DirOk, TailZero, InodeAt, U32At, GeometryOk,
           Unchanged, OthersKept, NameOk, Conserved, FreeBlocks, Reach;
      ghost var v, home0 := V(), home;
      PartsOf(g, v, home, torn, p);
      ino := Inode(MODE_REG, 0, 0, now, now, now, seq(15, i => 0));
      r := NewInode(p, ino);
      if r.Err? {
        NothingChanged(v, p);
        return;
      }
      ghost var u := V();
      NumberFits(g, u, home, torn, r.value);
      var added := Attach(p, dir, name, r.value, v, home0);
      KeptThrough(v, u, V(), p);
      if added.Err? {
        SpaceCount(g, V(), freeBlocks);
        r := Err(added.error);
      } else {
        FoundedEmpty(g, v, u, V(), p, r.value);
      }
    }

    /** `read_inode`: inode `n` from the inode table. */
    method ReadInode(n: nat) returns (ino: Inode)
      requires Valid() && n in files
      ensures ino == files[n] && ino.size <= MAX_BYTES && 1 <= n <= g.inodes
      ensures IsDirectory(ino) ==> DirOk(V(), home, n) && DirTiled(Content(V(), n))
    {
      hide Owned, Exact, SpaceOk, VolOk, Content, DirTiled, DirOk, U32At;
      PartsOf(g, V(), home, torn, n);
      ino := InodeAt(g, disk, n);
    }

    /** The map that directory `p` is. */
    ghost function Names(p: nat): map<Name, nat>
      requires Valid() && p in files && IsDirectory(files[p])
      reads this
    {
      PartsOf(g, V(), home, torn, p);
      DirMap(V(), p)
    }

    /** The bytes that file `n` is. */
    ghost function FileBytes(n: nat): seq<byte>
      requires Valid() && n in files
      reads this
    {
      PartsOf(g, V(), home, torn, n);
      Content(V(), n)
    }

    /** The bytes behind `name` in directory `p`; none if there is no such name. */
    ghost function NamedBytes(p: nat, name: Name): seq<byte>
      requires Valid() && p in files && IsDirectory(files[p])
      reads this
    {
      if name in Names(p) && Names(p)[name] in files then FileBytes(Names(p)[name]) else []
    }

    /** `read_at` of the file called `name` in directory `p`. */
    method ReadAt(p: nat, name: Name, off: nat, len: nat) returns (r: Result<seq<byte>>)
      requires Valid() && p in files && IsDirectory(files[p])
      ensures name !in Names(p) <==> r == Err(NotFound)
      ensures name in Names(p) ==> Names(p)[name] in files && (IsDirectory(files[Names(p)[name]]) <==> r == Err(NotSupported))
      ensures r.Err? ==> r.error in {NotFound, NotSupported}
      ensures r.Ok? ==> var c := NamedBytes(p, name);
        r.value == if off >= |c| then [] else c[off..if off + len <= |c| then off + len else |c|]
    {
      hide Owned, Exact, SpaceOk, VolOk, Content, DirTiled, U32At, DirMap, ListOk, NameOk, TailZero, InodeAt;
      var dir := ReadInode(p);
      var found := LookupIn(p, dir, name);
      if found.None? {
        return Err(NotFound);
      }
      NameLeads(V(), home, p, name);
      var ino := ReadInode(found.value);
      if IsDirectory(ino) {
        return Err(NotSupported);
      }
      var out := ReadInodeAt(found.value, ino, off, len);
      return Ok(out);
    }

    /** Nothing but zeros lies between the end of the file called `name`, if there is one, and where `off` lands. */
    ghost predicate ZeroGap(p: nat, name: Name, off: nat)
      requires Valid() && p in files && IsDirectory(files[p])
      reads this
    {
      name in Names(p) && Names(p)[name] in files ==> GapZero(V(), Names(p)[name], off % WRAP)
    }

    /** A write of `len` bytes at `off` to the file called `name`, there or not, is sure to find room. */
    ghost predicate Affordable(p: nat, name: Name, off: nat, len: nat)
      requires Valid() && p in files && IsDirectory(files[p])
      reads this
    {
      && off % WRAP + len <= MAX_BYTES
      && if name in Names(p) then Names(p)[name] in files && !IsDirectory(files[Names(p)[name]]) && Cost(len) < freeBlocks
         else FreeInodes(g, disk) != {} && files[p].size + BLOCK <= MAX_BYTES && Cost(len) + 3 < freeBlocks
    }

    /** Every block that the write touches is there already. */
    ghost predicate InPlace(p: nat, name: Name, off: nat, len: nat)
      requires Valid() && p in files && IsDirectory(files[p])
      reads this
    {
      name in Names(p) && Names(p)[name] in files && !IsDirectory(files[Names(p)[name]]) && Mapped(V(), Names(p)[name], off % WRAP, len)
    }

    /** No write to the file called `name` failed or cut it short. */
    ghost predicate Sound(p: nat, name: Name)
      requires Valid() && p in files && IsDirectory(files[p])
      reads this
    {
      name in Names(p) ==> Names(p)[name] !in torn
    }

    lemma NameFound(p: nat, name: Name)
      requires Valid() && p in files && IsDirectory(files[p]) && name in Names(p)
      ensures Names(p)[name] in files
    {
      hide VolOk, DirMap, Content, DirTiled, ListOk;
      PartsOf(g, V(), home, torn, p);
      NameLeads(V(), home, p, name);
    }

    /** `write_at` of a file that is there: `t`, which `name` leads to. */
    method WriteFound(p: nat, name: Name, t: nat, off: nat, buf: seq<byte>, now: nat) returns (r: Result<nat>)
      requires Valid() && p in files && IsDirectory(files[p]) && NameOk(name) && name in Names(p) && Names(p)[name] == t && t in files
      requires off + |buf| < 0x1_0000_0000_0000_0000 && now < 0x1_0000_0000
      modifies this
      ensures Valid() && p in files && IsDirectory(files[p]) && t in files && Names(p) == old(Names(p))
      ensures OthersKept(old(V()), V(), {t}) && files[t].mode == old(files)[t].mode
      ensures r.Err? ==> NoRoom(g, disk, r.error, off % WRAP + |buf|) || (r.error == NotSupported && IsDirectory(old(files)[t]))
      ensures buf != [] && IsDirectory(old(files)[t]) ==> r == Err(NotSupported) && V() == old(V())
      ensures r.Err? ==> buf != [] && torn == old(torn) + if IsDirectory(old(files)[t]) then {} else {t}
      ensures buf == [] ==> r == Ok(0) && V() == old(V()) && torn == old(torn)
      ensures r.Ok? && buf != [] ==>
        && r.value == |buf| && Laid(old(V()), V(), t, off % WRAP, buf)
        && Written(V(), t, old(FileBytes(t)), off, buf, old(ZeroGap(p, name, off))) && (t !in old(torn) ==> old(ZeroGap(p, name, off)))
        && torn == old(torn) + (if Cuts(|old(FileBytes(t))|, off, off % WRAP, |buf|) then {t} else {})
        && Conserved(g, old(V()), V(), t) && FreeInodes(g, disk) == old(FreeInodes(g, disk))
      ensures r.Ok? && buf != [] && off < WRAP && t !in old(torn) ==> t !in torn && FileBytes(t) == Overlay(old(FileBytes(t)), off, buf)
      ensures old(freeBlocks) <= freeBlocks + Cost(|buf|)
      ensures r.Err? && !IsDirectory(old(files)[t]) && off % WRAP + |buf| <= MAX_BYTES ==> old(freeBlocks) <= Cost(|buf|)
      ensures !IsDirectory(old(files)[t]) && Mapped(old(V()), t, off % WRAP, |buf|) ==> r.Ok? && own == old(own) && FreeBlocks(g, disk) == old(FreeBlocks(g, disk))
    {
      hide Owned, Exact, SpaceOk, VolOk, Content, DirTiled, U32At, DirMap, ListOk, NameOk, TailZero, InodeAt, Overlay, Laid, Conserved, DataAt,
           Unchanged, OthersKept, FreeInodes, FreeBlocks, Written, GapZero, IsMeta, Mapped, Cost;
      ghost var v := V();
      PartsOf(g, v, home, torn, p);
      NameLeads(v, home, p, name);
      NothingChanged(v, t);
      var ino := ReadInode(t);
      if buf == [] {
        return Ok(0);
      }
      if IsDirectory(ino) {
        return Err(NotSupported);
      }
      r := WriteData(t, ino, off, buf, now);
      WroteKept(v, V(), p, t);
      PartsOf(g, V(), home, torn, p);
    }

    /** `write_at` of a file that is not there: it is created first. */
    method WriteNew(p: nat, dir: Inode, name: Name, off: nat, buf: seq<byte>, now: nat) returns (r: Result<nat>)
      requires Valid() && p in files && files[p] == dir && IsDirectory(dir) && NameOk(name) && name !in Names(p)
      requires off + |buf| < 0x1_0000_0000_0000_0000 && now < 0x1_0000_0000
      modifies this
      ensures Valid() && p in files && IsDirectory(files[p]) && OthersKept(old(V()), V(), {p})
      ensures r.Err? ==> NoRoom(g, disk, r.error, off % WRAP + |buf|) || NoRoom(g, disk, r.error, dir.size + BLOCK)
      ensures name !in Names(p) ==> r.Err? && Names(p) == old(Names(p)) && torn == old(torn)
      ensures name in Names(p) ==> var t := Names(p)[name];
        && t in files && t !in old(files) && t !in old(torn) && Names(p) == old(Names(p))[name := t] && !IsDirectory(files[t])
        && torn == if r.Err? then old(torn) + {t} else old(torn)
      ensures r.Err? && name in Names(p) ==> buf != []
      ensures r.Ok? ==> var t := Names(p)[name];
        && r.value == |buf| && Founded(g, old(V()), V(), p, t)
        && t in old(FreeInodes(g, disk)) && FreeInodes(g, disk) == old(FreeInodes(g, disk)) - {t}
        && if buf == [] then FileBytes(t) == [] else Written(V(), t, [], off, buf, true) && (off < WRAP ==> FileBytes(t) == Overlay([], off, buf))
      ensures old(freeBlocks) <= freeBlocks + Cost(|buf|) + 3
      ensures r.Err? && off % WRAP + |buf| <= MAX_BYTES && dir.size + BLOCK <= MAX_BYTES ==> old(FreeInodes(g, disk)) == {} || old(freeBlocks) <= Cost(|buf|) + 3
    {
      hide Owned, Exact, SpaceOk, VolOk, Content, DirTiled, U32At, DirMap, ListOk, NameOk, TailZero, InodeAt, Overlay, Laid, Conserved, DataAt,
           Unchanged, OthersKept, FreeInodes, FreeBlocks, Written, GapZero, IsMeta, Reach, Founded, Mapped, Cost;
      ghost var v := V();
      PartsOf(g, v, home, torn, p);
      var created, ino := CreateIn(p, dir, name, now);
      ghost var u := V();
      if created.Err? {
        UnchangedMap(v, u, p);
        return Err(created.error);
      }
      var t := created.value;
      FoundedBoth(g, v, u, u, p, t);
      if buf == [] {
        return Ok(0);
      }
      assert Content(u, t) == [];
      PartsOf(g, u, home, torn, p);
      r := WriteData(t, ino, off, buf, now);
      WroteKept(u, V(), p, t);
      KeptTwice(v, u, V(), p, t);
      PartsOf(g, V(), home, torn, p);
      if r.Ok? {
        FoundedBoth(g, v, u, V(), p, t);
      }
    }

    /**
     `write_at` of the file called `name` in directory `p`, creating it if it is missing. Every
     other file is untouched. The file is its old bytes, zero-filled up to `off`, with `buf` laid
     over them, for every file that no earlier write failed on or cut short; for the others
     exactly when the gap happens to hold zeros. A write over blocks that are there succeeds and
     takes none; any other succeeds if there is room to spare.
     */
    method WriteAt(p: nat, name: Name, off: nat, buf: seq<byte>, now: nat) returns (r: Result<nat>)
      requires Valid() && p in files && IsDirectory(files[p]) && NameOk(name)
      requires off + |buf| < 0x1_0000_0000_0000_0000 && now < 0x1_0000_0000
      modifies this
      ensures Valid() && p in files && IsDirectory(files[p])
      ensures OthersKept(old(V()), V(), if name in old(Names(p)) then {old(Names(p))[name]} else {p})
      ensures name in old(Names(p)) ==> old(Names(p))[name] in old(files) && Names(p) == old(Names(p))
      ensures name !in old(Names(p)) ==> Names(p) == if name in Names(p) then old(Names(p))[name := Names(p)[name]] else old(Names(p))
      ensures name in Names(p) ==> Names(p)[name] in files
      ensures r.Err? ==>
        || NoRoom(g, disk, r.error, off % WRAP + |buf|)
        || (name !in old(Names(p)) && NoRoom(g, disk, r.error, old(files)[p].size + BLOCK))
        || (r.error == NotSupported && name in old(Names(p)) && IsDirectory(old(files)[old(Names(p))[name]]))
      ensures name in old(Names(p)) && buf != [] && IsDirectory(old(files)[old(Names(p))[name]]) ==> r == Err(NotSupported) && V() == old(V())
      ensures r.Err? ==> torn == old(torn) + (if name in Names(p) && !IsDirectory(files[Names(p)[name]]) then {Names(p)[name]} else {})
      ensures r.Ok? ==> r.value == |buf| && name in Names(p) && (buf != [] ==> !IsDirectory(files[Names(p)[name]]))
      ensures r.Ok? && buf == [] ==> NamedBytes(p, name) == old(NamedBytes(p, name)) && torn == old(torn)
      ensures r.Ok? && buf != [] ==> var t := Names(p)[name];
        && Written(V(), t, old(NamedBytes(p, name)), off, buf, old(ZeroGap(p, name, off))) && (old(Sound(p, name)) ==> old(ZeroGap(p, name, off)))
        && torn == old(torn) + (if Cuts(|old(NamedBytes(p, name))|, off, off % WRAP, |buf|) then {t} else {})
      ensures r.Ok? && buf != [] && off < WRAP && old(Sound(p, name)) ==>
        Sound(p, name) && NamedBytes(p, name) == Overlay(old(NamedBytes(p, name)), off, buf)
      ensures r.Ok? && buf != [] && name in old(Names(p)) ==> var t := Names(p)[name];
        Laid(old(V()), V(), t, off % WRAP, buf) && Conserved(g, old(V()), V(), t) && FreeInodes(g, disk) == old(FreeInodes(g, disk))
      ensures r.Ok? && name !in old(Names(p)) ==> var t := Names(p)[name];
        && t !in old(files) && Founded(g, old(V()), V(), p, t)
        && t in old(FreeInodes(g, disk)) && FreeInodes(g, disk) == old(FreeInodes(g, disk)) - {t}
      ensures old(freeBlocks) <= freeBlocks + Cost(|buf|) + if name in old(Names(p)) then 0 else 3
      ensures old(Affordable(p, name, off, |buf|)) ==> r.Ok?
      ensures old(InPlace(p, name, off, |buf|)) ==> r.Ok? && own == old(own) && FreeBlocks(g, disk) == old(FreeBlocks(g, disk))
    {
      hide TreeOk, SpaceOk, VolOk, Content, DirTiled, U32At, DirMap, ListOk, NameOk, TailZero, InodeAt, Overlay, Laid, Conserved, DataAt,
           Unchanged, OthersKept, FreeInodes, FreeBlocks, Written, GapZero, IsMeta, Founded, Synced, DirOk, NoRoom, Mapped, Cost;
      TreeInodes(g, V());
      var dir := ReadInode(p);
      var found := LookupIn(p, dir, name);
      if found.Some? {
        NameFound(p, name);
        r := WriteFound(p, name, found.value, off, buf, now);
      } else {
        r := WriteNew(p, dir, name, off, buf, now);
      }
    }

    /** A new directory inode with its block of dots, not yet named anywhere. */
    method NewDirectory(p: nat, now: nat) returns (r: Result<nat>)
      requires Valid() && p in files && IsDirectory(files[p]) && now < 0x1_0000_0000
      modifies this`disk, this`freeBlocks, this`freeInodes, this`files, this`own, this`home
      ensures Valid()
      ensures r.Err? ==> NoRoom(g, disk, r.error, 0) && files == old(files) && home == old(home)
      ensures r.Err? ==> forall m :: m in old(files) ==> Unchanged(old(V()), V(), m)
      ensures r.Ok? ==>
        && Joined(old(V()), V(), r.value) && r.value != 0 && IsDirectory(files[r.value])
        && home == old(home)[r.value := p] && r.value !in torn
        && Names(r.value) == map[[46] := r.value, [46, 46] := p]
        && (forall m :: m in old(files) ==> Unchanged(old(V()), V(), m))
        && r.value in old(FreeInodes(g, disk)) && FreeInodes(g, disk) == old(FreeInodes(g, disk)) - {r.value}
        && Conserved(g, old(V()), V(), r.value)
    {
      hide Owned, Exact, SpaceOk, VolOk, DataAt, BlockOf, FreeNumbers, IsMeta, PutInode, ByteAt, TailZero, Content, InodeAt, FreeBlocks,
           SameData, Joined, DotsBlock, DirOk, DirTiled, DirMap, Unchanged, U32At, SameInodesBut, SameInodeArea, Grown, SpaceKept, Conserved, FreeInodes;
      ghost var v := V();
      NumberFits(g, v, home, torn, p);
      var ino := Inode(MODE_DIR, 0, 0, now, now, now, seq(15, i => 0));
      var a := TakeInode(ino);
      if a.Err? {
        AllUnchanged(v, v);
        return a;
      }
      var t := a.value;
      ghost var w := V();
      SameBlockBitmap(g, v.d, disk);
      SpaceCount(g, w, freeBlocks);
      var phys;
      phys, ino := EnsureBlock(t, ino, 0);
      ghost var x := V();
      if phys.Err? {
        files := v.files;
        NumberLost(g, v, V(), home, torn, t, freeBlocks);
        return phys;
      }
      ExtendsInode(g, w, x, t);
      SameInodeAreaSame(g, w.d, x.d);
      StoreDots(t, ino, phys.value, p, v, w);
      BornConserves(g, v, w, x, V(), t, freeBlocks);
      return Ok(t);
    }

    /** The rest of `mkdir_in` once the block is there: write the dots, store the inode. */
    method StoreDots(t: nat, ino: Inode, phys: nat, p: nat, ghost v: Vol, ghost w: Vol)
      requires Inv() && Synced() && t in files && files[t] == ino && BlockOf(V(), t, Direct(0)) == phys != 0
      requires ino.mode == MODE_DIR && 0 < t < 0x1_0000_0000 && 0 < p < 0x1_0000_0000
      requires |v.d| == |w.d| == g.blocks && InodesOk(v) && InodesOk(w)
      requires VolOk(g, v, home, torn) && torn <= v.files.Keys
      requires Numbered(g, v, w, t) && p in v.files && IsDirectory(v.files[p]) && Extends(g, w, V(), t)
      modifies this`disk, this`files, this`home
      ensures Valid() && Joined(v, V(), t) && IsDirectory(files[t]) && t !in torn
      ensures home == old(home)[t := p]
      ensures Names(t) == map[[46] := t, [46, 46] := p]
      ensures forall m :: m in v.files ==> Unchanged(v, V(), m)
      ensures FreeBlocks(g, disk) == old(FreeBlocks(g, disk)) && FreeInodes(g, disk) == old(FreeInodes(g, disk))
    {
      hide TreeOk, SpaceOk, VolOk, DataAt, BlockOf, IsMeta, PutInode, TailZero, Content, FreeInodes,
           Joined, DotsBlock, DirOk, DirTiled, DirMap, Unchanged, U32At, Extends, Numbered, FreeBlocks;
      ghost var x := V();
      NumberedFresh(g, v, w, home, torn, t);
      assert torn - {t} == torn;
      PlaceOf(g, x, t, Direct(0));
      disk := disk[phys := DotsBlock(t, p)];
      ghost var y := V();
      DotsWritten(g, x, y, t, p, phys, freeBlocks);
      TreeInodes(g, y);
      WriteInode(t, ino.(size := BLOCK));
      TreeInodes(g, V());
      BornDirectory(g, v, w, x, y, V(), home, torn, t, p, phys);
      JoinedModes(v, V(), t);
      home := home[t := p];
      JoinedUnchanged(v, V(), t);
    }

    /** `mkdir` of `name` in directory `p`. */
    method Mkdir(p: nat, name: Name, now: nat) returns (r: Result<()>)
      requires Valid() && p in files && IsDirectory(files[p]) && NameOk(name) && now < 0x1_0000_0000
      modifies this`disk, this`freeBlocks, this`freeInodes, this`files, this`own, this`home
      ensures Valid() && OthersKept(old(V()), V(), {p}) && p in files && IsDirectory(files[p]) && torn == old(torn)
      ensures name in old(Names(p)) <==> r == Err(Exists)
      ensures r.Err? ==> Names(p) == old(Names(p)) && (r.error == Exists || NoRoom(g, disk, r.error, old(files)[p].size + BLOCK))
      ensures r.Ok? ==>
        && name in Names(p) && Names(p) == old(Names(p))[name := Names(p)[name]]
        && Names(p)[name] in files && Names(p)[name] !in old(files) && IsDirectory(files[Names(p)[name]])
        && Names(Names(p)[name]) == map[[46] := Names(p)[name], [46, 46] := p]
        && Founded(g, old(V()), V(), p, Names(p)[name])
        && Names(p)[name] in old(FreeInodes(g, disk)) && FreeInodes(g, disk) == old(FreeInodes(g, disk)) - {Names(p)[name]}
    {
      hide Owned, Exact, SpaceOk, VolOk, Content, DirTiled, U32At, DirMap, ListOk, NameOk, TailZero, InodeAt, DataAt,
           Unchanged, OthersKept, FreeInodes, Joined, Founded, Conserved, FreeBlocks, Reach;
      ghost var v, home0 := V(), home;
      NothingChanged(v, p);
      var dir := ReadInode(p);
      var found := LookupIn(p, dir, name);
      if found.Some? {
        return Err(Exists);
      }
      var made := NewDirectory(p, now);
      ghost var u := V();
      if made.Err? {
        AllKept(v, u, p);
        return Err(made.error);
      }
      var t := made.value;
      JoinedModes(v, u, t);
      NumberFits(g, u, home, torn, t);
      r := Attach(p, dir, name, t, v, home0);
      KeptThrough(v, u, V(), p);
      PartsOf(g, u, home, torn, t);
      WroteKept(u, V(), t, p);
      PartsOf(g, V(), home, torn, t);
      if r.Err? {
        UnchangedMap(v, u, p);
        UnchangedMap(u, V(), p);
      } else {
        FoundedDir(g, v, u, V(), p, t);
      }
    }

    /** The record of inode `t` in directory `p`, where `name` leads to `t`: the first with its number. */
    method FindRecord(ghost p: nat, es: seq<Rec>, t: nat, ghost name: Name) returns (k: nat)
      requires t != 0 && name in NameMap(Live(es)) && NameMap(Live(es))[name] == t && !IsDot(name)
      requires ListOk(files, home, p, Live(es))
      ensures k < |es| && es[k].ino == t && es[k].name == name
    {
      hide ListOk, IsDot, NameMap;
      ghost var j := RecordOf(es, name);
      k := 0;
      while es[k].ino != t
        invariant 0 <= k <= j < |es| && es[j].ino == t
        decreases j - k
      {
        k := k + 1;
      }
      OnlyRecord(files, home, p, es, j, k);
    }

    /**
     `unlink` of the file called `name` in directory `p`: the name goes, the inode and
     exactly the blocks of its tree become free, nothing else changes.
     */
    method Unlink(p: nat, name: Name) returns (r: Result<()>)
      requires Valid() && p in files && IsDirectory(files[p]) && NameOk(name)
      modifies this
      ensures Valid() && p in files && IsDirectory(files[p])
      ensures name !in old(Names(p)) <==> r == Err(NotFound)
      ensures name in old(Names(p)) ==>
        old(Names(p))[name] in old(files) && (IsDirectory(old(files)[old(Names(p))[name]]) <==> r == Err(FsError.IsDir))
      ensures r.Err? ==> r.error in {NotFound, FsError.IsDir} && V() == old(V()) && torn == old(torn)
      ensures r.Ok? ==>
        && Names(p) == old(Names(p)) - {name} && torn == old(torn) - {old(Names(p))[name]}
        && (forall m :: m != old(Names(p))[name] ==> Reach(V(), m) == Reach(old(V()), m))
        && files.Keys == old(files).Keys - {old(Names(p))[name]} && OthersKept(old(V()), V(), {p, old(Names(p))[name]})
        && FreeBlocks(g, disk) == old(FreeBlocks(g, disk)) + Reach(old(V()), old(Names(p))[name])
        && FreeInodes(g, disk) == old(FreeInodes(g, disk)) + {old(Names(p))[name]}
    {
      hide Owned, Exact, SpaceOk, VolOk, Content, DirTiled, U32At, ListOk, TailZero, InodeAt, DataAt, NameOk, DirMap, Reach,
           Unchanged, OthersKept, FreeInodes, FreeBlocks, IsMeta, Synced;
      var dir := ReadInode(p);
      var found := LookupIn(p, dir, name);
      if found.None? {
        return Err(NotFound);
      }
      NameFound(p, name);
      var ino := ReadInode(found.value);
      if IsDirectory(ino) {
        return Err(FsError.IsDir);
      }
      Detach(p, dir, name, found.value, ino);
      return Ok(());
    }

    /** Free the record of `name`, which leads to `t`, in directory `p`. */
    method EraseRecord(p: nat, dir: Inode, name: Name, t: nat) returns (ghost k: nat)
      requires Valid() && p in files && files[p] == dir && IsDirectory(dir) && NameOk(name) && name in Names(p) && Names(p)[name] == t && t in files
      modifies this`disk
      ensures Inv() && DirOk(old(V()), home, p) && t != 0
      ensures k < |Entries(old(Content(V(), p)))| && Entries(old(Content(V(), p)))[k].ino == t && Entries(old(Content(V(), p)))[k].name == name
      ensures Edited(g, old(V()), V(), p, FreeRecord(Entries(old(Content(V(), p))), k))
      ensures FreeBlocks(g, disk) == old(FreeBlocks(g, disk)) && FreeInodes(g, disk) == old(FreeInodes(g, disk))
    {
      hide Owned, Exact, SpaceOk, VolOk, Content, DirTiled, U32At, ListOk, TailZero, InodeAt, DataAt, Reach,
           FreeInodes, FreeBlocks, NameMap, Live, Entries, BlockOf, SlotOf, FreeBytes, Edited, IsMeta;
      ghost var v := V();
      PartsOf(g, v, home, torn, p);
      PartsOf(g, v, home, torn, t);
      var entries := DirEntries(p, dir);
      var es := entries.value;
      var i := FindRecord(p, es, t, name);
      FreedRecord(g, v, p, Content(v, p), i);
      var phys := MapBlock(p, dir, es[i].off / BLOCK);
      disk := disk[phys.value := FreeBytes(disk[phys.value], es[i].off % BLOCK)];
      EditedInv(g, v, V(), p, FreeRecord(es, i), freeBlocks);
      k := i;
    }

    /** The rest of `unlink`: free the record of `name`, then the blocks and the inode of `t` behind it. */
    method Detach(p: nat, dir: Inode, name: Name, t: nat, ino: Inode)
      requires Valid() && p in files && files[p] == dir && IsDirectory(dir) && NameOk(name)
      requires name in Names(p) && Names(p)[name] == t && t in files && files[t] == ino && !IsDirectory(ino)
      modifies this
      ensures Valid() && p in files && IsDirectory(files[p])
      ensures Names(p) == old(Names(p)) - {name} && torn == old(torn) - {t}
      ensures forall m :: m != t ==> Reach(V(), m) == Reach(old(V()), m)
      ensures files.Keys == old(files).Keys - {t} && OthersKept(old(V()), V(), {p, t})
      ensures FreeBlocks(g, disk) == old(FreeBlocks(g, disk)) + Reach(old(V()), t)
      ensures FreeInodes(g, disk) == old(FreeInodes(g, disk)) + {t}
    {
      hide Owned, Exact, SpaceOk, VolOk, Content, DirTiled, U32At, ListOk, TailZero, InodeAt, DataAt, Reach,
           Unchanged, OthersKept, FreeInodes, FreeBlocks, NameMap, Live, Entries, BlockOf, SlotOf, FreeBytes, Edited, Drop, IsMeta;
      ghost var v := V();
      PartsOf(g, v, home, torn, t);
      ghost var k := EraseRecord(p, dir, name, t);
      ghost var u := V();
      FreeInodeBlocks(t, ino);
      ghost var w := V();
      SameBitmap(g, u.d, disk);
      FreeInode(t);
      SameBlockBitmap(g, w.d, disk);
      UnlinkedState(g, v, u, w, V(), home, torn, p, k, t, name);
      DropReach(u, w, V(), t);
      SameReach(v, u);
      torn := torn - {t};
    }

    /** `rename` within directory `p`: the inode moves to the new name, in the same record. */
    method Rename(p: nat, from: Name, to: Name) returns (r: Result<()>)
      requires Valid() && p in files && IsDirectory(files[p]) && NameOk(from) && NameOk(to)
      modifies this`disk
      ensures Valid() && p in files && IsDirectory(files[p]) && torn == old(torn)
      ensures from !in old(Names(p)) <==> r == Err(NotFound)
      ensures from in old(Names(p)) && to in old(Names(p)) <==> r == Err(Exists)
      ensures r.Err? ==> r.error in {NotFound, Exists, NotSupported} && V() == old(V())
      ensures r == Err(NotSupported) <==>
        from in old(Names(p)) && to !in old(Names(p)) && TooShort(Entries(old(Content(V(), p))), from, to)
      ensures r.Ok? ==>
        && Names(p) == (old(Names(p)) - {from})[to := old(Names(p))[from]]
        && files == old(files) && OthersKept(old(V()), V(), {p})
        && FreeBlocks(g, disk) == old(FreeBlocks(g, disk)) && FreeInodes(g, disk) == old(FreeInodes(g, disk))
    {
      hide Owned, Exact, SpaceOk, VolOk, Content, DirTiled, U32At, ListOk, TailZero, InodeAt, DataAt,
           Unchanged, OthersKept, FreeInodes, FreeBlocks, NameMap, Live, Entries, BlockOf, SlotOf, RenameBytes, Edited, Span, IsMeta;
      ghost var v := V();
      var dir := ReadInode(p);
      var found := LookupIn(p, dir, from);
      if found.None? {
        return Err(NotFound);
      }
      var taken := LookupIn(p, dir, to);
      if taken.Some? {
        return Err(Exists);
      }
      var t := found.value;
      NameLeads(v, home, p, from);
      var need := Span(to);
      var entries := DirEntries(p, dir);
      var es := entries.value;
      var k := FindRecord(p, es, t, from);
      OnlyTooShort(files, home, p, es, k, from, to);
      if need > es[k].len {
        return Err(NotSupported);
      }
      PartsOf(g, v, home, torn, p);
      RenamedRecord(g, v, p, Content(v, p), k, to);
      var phys := MapBlock(p, dir, es[k].off / BLOCK);
      disk := disk[phys.value := RenameBytes(disk[phys.value], es[k].off % BLOCK, to)];
      EditedInv(g, v, V(), p, RenameRecord(es, k, to), freeBlocks);
      RenamedState(g, v, V(), home, torn, p, k, to);
      return Ok(());
    }

    /**
     The overlay law fails on a file that was cut: a byte at offset 2^42 lands at 0 and cuts the
     file to one byte, and a byte at offset 3 then brings the old second byte back to light. Both
     writes land in a block that is there, so they succeed.
     */
    method CutThenGrow(p: nat, name: Name, now: nat)
      requires Valid() && p in files && IsDirectory(files[p]) && NameOk(name) && now < 0x1_0000_0000
      requires name in Names(p) && Names(p)[name] in files && Sound(p, name)
      requires |NamedBytes(p, name)| == 2 && NamedBytes(p, name)[1] != 0
      modifies this
      ensures Valid() && p in files && IsDirectory(files[p])
      ensures NamedBytes(p, name) != Overlay([120], 3, [121])
    {
      hide TreeOk, SpaceOk, VolOk, U32At, DirMap, OthersKept, FreeBlocks, FreeInodes, NameOk, Conserved, NoRoom, Founded, Overlay, Content, Written,
           Laid, GapZero, Synced, Mapped, Affordable;
      ghost var t := Names(p)[name];
      ghost var v := V();
      TreeInodes(g, v);
      OddIsFile(t);
      FirstBlockThere(v, t);
      var a := WriteAt(p, name, WRAP, [120], now);
      ghost var w := V();
      TreeInodes(g, w);
      CutBytes(v, w, t, NamedBytes(p, name));
      FirstBlockStays(g, v, w, t);
      var b := WriteAt(p, name, 3, [121], now);
      TreeInodes(g, V());
      Regrown(V(), t);
    }

    lemma OddIsFile(t: nat)
      requires Valid() && t in files && files[t].size % BLOCK != 0
      ensures !IsDirectory(files[t])
    {
      hide TreeOk, SpaceOk, VolOk, Content;
      TreeInodes(g, V());
      PartsOf(g, V(), home, torn, t);
    }

    /** A run of writes to the file called `name` is sure to find room. */
    ghost predicate AllAffordable(p: nat, name: Name, writes: seq<(nat, seq<byte>)>)
      requires Valid() && p in files && IsDirectory(files[p])
      reads this
    {
      && (forall i :: 0 <= i < |writes| ==> writes[i].0 % WRAP + |writes[i].1| <= MAX_BYTES)
      && if name in Names(p) then Names(p)[name] in files && !IsDirectory(files[Names(p)[name]]) && Costs(writes) < freeBlocks
         else FreeInodes(g, disk) != {} && files[p].size + BLOCK <= MAX_BYTES && Costs(writes) + 3 < freeBlocks
    }

    /** Why a run of writes stopped: no room for one of them, none for the name, or the name is a directory's. */
    ghost predicate Stopped(e: FsError, writes: seq<(nat, seq<byte>)>, name: Name, names: map<Name, nat>, inodes: map<nat, Inode>, p: nat)
      requires Inv() && p in inodes
      reads this
    {
      || (exists i :: 0 <= i < |writes| && NoRoom(g, disk, e, writes[i].0 % WRAP + |writes[i].1|))
      || (name !in names && NoRoom(g, disk, e, inodes[p].size + BLOCK))
      || (e == NotSupported && name in names && names[name] in inodes && IsDirectory(inodes[names[name]]))
    }

    /**
     A run of writes to one file, created if it is missing. The file ends as all the writes laid
     over its bytes one after the other, and every block and inode number is accounted for. The
     run completes whenever there is room to spare, and stops only for want of room or because the
     name is a directory's.
     */
    method WriteAll(p: nat, name: Name, writes: seq<(nat, seq<byte>)>, now: nat) returns (r: Result<()>)
      requires Valid() && p in files && IsDirectory(files[p]) && NameOk(name) && now < 0x1_0000_0000
      requires forall i :: 0 <= i < |writes| ==> writes[i].1 != [] && writes[i].0 + |writes[i].1| < 0x1_0000_0000_0000_0000
      modifies this
      ensures Valid() && p in files && IsDirectory(files[p])
      ensures r.Ok? ==> Accounted(g, old(V()), V(), p, old(Names(p)), Names(p), name)
      ensures r.Ok? && writes != [] ==> name in Names(p) && Names(p)[name] in files && !IsDirectory(files[Names(p)[name]])
      ensures r.Ok? && old(Sound(p, name)) && (forall i :: 0 <= i < |writes| ==> writes[i].0 < WRAP) ==>
        Sound(p, name) && NamedBytes(p, name) == Overlays(old(NamedBytes(p, name)), writes)
      ensures r.Err? ==> Stopped(r.error, writes, name, old(Names(p)), old(files), p)
      ensures writes == [] ==> r.Ok? && unchanged(this)
      ensures old(AllAffordable(p, name, writes)) ==> r.Ok?
    {
      hide Owned, Exact, SpaceOk, VolOk, U32At, DirMap, Content, OthersKept, FreeBlocks, FreeInodes, Overlay, NameOk, Reach, Accounted, Founded, Conserved,
           Laid, Written, GapZero, NoRoom, Overlays, Names, Sound, NamedBytes, ZeroGap, TreeOk, InPlace, Mapped, Costs, Cost;
      ghost var v, names := V(), Names(p);
      AccountedNone(g, v, p, names, name);
      OverlaysNone(NamedBytes(p, name), writes);
      CostsNone(writes);
      for i := 0 to |writes|
        invariant Valid() && p in files && IsDirectory(files[p])
        invariant Accounted(g, v, V(), p, names, Names(p), name)
        invariant if i == 0 then unchanged(this) else name in Names(p) && Names(p)[name] in files && !IsDirectory(files[Names(p)[name]])
        invariant old(freeBlocks) <= freeBlocks + Costs(writes[..i]) + if name in names then 0 else 3
        invariant old(Sound(p, name)) && (forall k :: 0 <= k < i ==> writes[k].0 < WRAP) ==>
          Sound(p, name) && NamedBytes(p, name) == Overlays(old(NamedBytes(p, name)), writes[..i])
      {
        ghost var u, before := V(), Names(p);
        CostsStep(writes, i);
        var wrote := WriteAt(p, name, writes[i].0, writes[i].1, now);
        if wrote.Err? {
          return Err(wrote.error);
        }
        OverlaysStep(old(NamedBytes(p, name)), writes, i);
        AccountedWrite(g, u, V(), p, before, Names(p), name);
        AccountedStep(g, v, u, V(), p, names, before, Names(p), name);
      }
      assert writes[..|writes|] == writes;
      return Ok(());
    }

    /**
     A run of writes to one file followed by its removal: all that the writes allocated comes
     back, and so does the inode number. A file that was there before also gives back what it
     held; for one that was not, a block by which the directory grew stays with the directory.
     */
    method WriteAllThenUnlink(p: nat, name: Name, writes: seq<(nat, seq<byte>)>, now: nat) returns (r: Result<()>)
      requires Valid() && p in files && IsDirectory(files[p]) && NameOk(name) && now < 0x1_0000_0000
      requires forall i :: 0 <= i < |writes| ==> writes[i].1 != [] && writes[i].0 + |writes[i].1| < 0x1_0000_0000_0000_0000
      modifies this
      ensures Valid()
      ensures r.Ok? ==> p in files && IsDirectory(files[p]) && Names(p) == old(Names(p)) - {name}
      ensures r.Ok? && name in old(Names(p)) ==> var t := old(Names(p))[name];
        && FreeBlocks(g, disk) == old(FreeBlocks(g, disk)) + Reach(old(V()), t)
        && FreeInodes(g, disk) == old(FreeInodes(g, disk)) + {t}
      ensures r.Ok? && name !in old(Names(p)) ==>
        && FreeBlocks(g, disk) + Reach(V(), p) == old(FreeBlocks(g, disk)) + Reach(old(V()), p)
        && FreeInodes(g, disk) == old(FreeInodes(g, disk))
      ensures r.Err? ==>
        || Stopped(r.error, writes, name, old(Names(p)), old(files), p)
        || (writes == [] && r.error == if name in old(Names(p)) then FsError.IsDir else NotFound)
      ensures writes != [] && old(AllAffordable(p, name, writes)) ==> r.Ok?
    {
      hide Owned, Exact, SpaceOk, VolOk, U32At, DirMap, Content, OthersKept, FreeBlocks, FreeInodes, Overlay, NameOk, Reach, Accounted, Stopped,
           AllAffordable, NamedBytes, Sound, Overlays, Names, Synced, TreeOk;
      ghost var v, names := V(), Names(p);
      r := WriteAll(p, name, writes, now);
      if r.Err? {
        return;
      }
      ghost var u, after := V(), Names(p);
      r := Unlink(p, name);
      if r.Ok? {
        AccountedEnd(g, v, u, V(), p, names, after, name);
      }
    }
  }

  /** The bytes after a run of writes, each laid over what the ones before it left. */
  function Overlays(c: seq<byte>, writes: seq<(nat, seq<byte>)>): seq<byte> {
    if writes == [] then c
    else
      var last := writes[|writes| - 1];
      Overlay(Overlays(c, writes[..|writes| - 1]), last.0, last.1)
  }

  lemma OverlaysStep(c: seq<byte>, writes: seq<(nat, seq<byte>)>, i: nat)
    requires i < |writes|
    ensures Overlays(c, writes[..i + 1]) == Overlay(Overlays(c, writes[..i]), writes[i].0, writes[i].1)
  {
    assert writes[..i + 1][..i] == writes[..i];
  }

  lemma OverlaysNone(c: seq<byte>, writes: seq<(nat, seq<byte>)>)
    ensures Overlays(c, writes[..0]) == c
  {
  }

  /** The most blocks that a run of writes can take. */
  function Costs(writes: seq<(nat, seq<byte>)>): nat {
    if writes == [] then 0 else Costs(writes[..|writes| - 1]) + Cost(|writes[|writes| - 1].1|)
  }

  lemma CostsNone(writes: seq<(nat, seq<byte>)>)
    ensures Costs(writes[..0]) == 0
  {
  }

  lemma CostsStep(writes: seq<(nat, seq<byte>)>, i: nat)
    requires i < |writes|
    ensures Costs(writes[..i + 1]) == Costs(writes[..i]) + Cost(|writes[i].1|) <= Costs(writes)
  {
    assert writes[..i + 1][..i] == writes[..i];
    CostsPrefix(writes, i + 1);
  }

  lemma {:induction false} CostsPrefix(writes: seq<(nat, seq<byte>)>, i: nat)
    requires i <= |writes|
    ensures Costs(writes[..i]) <= Costs(writes)
  {
    if i < |writes| {
      var n := |writes| - 1;
      assert writes[..n][..i] == writes[..i];
      CostsPrefix(writes[..n], i);
    } else {
      assert writes[..i] == writes;
    }
  }

  /** What became of the blocks and the inode numbers between two states of the file called `name` in directory `p`. */
  ghost predicate Accounted(g: Geometry, v: Vol, w: Vol, p: nat, before: map<Name, nat>, after: map<Name, nat>, name: Name)
    requires GeometryOk(g) && |v.d| == |w.d| == g.blocks
  {
    if name in before then
      after == before && Conserved(g, v, w, before[name]) && FreeInodes(g, w.d) == FreeInodes(g, v.d)
    else if name in after then
      var t := after[name];
      && after == before[name := t] && t != p && Founded(g, v, w, p, t)
      && t in FreeInodes(g, v.d) && FreeInodes(g, w.d) == FreeInodes(g, v.d) - {t}
    else after == before && w.own == v.own && FreeBlocks(g, w.d) == FreeBlocks(g, v.d) && FreeInodes(g, w.d) == FreeInodes(g, v.d)
  }

  lemma AccountedNone(g: Geometry, v: Vol, p: nat, names: map<Name, nat>, name: Name)
    requires GeometryOk(g) && |v.d| == g.blocks
    ensures Accounted(g, v, v, p, names, names, name)
  {
  }

  /** One more write (`u` to `w`) to the file. */
  lemma AccountedStep(g: Geometry, v: Vol, u: Vol, w: Vol, p: nat, names: map<Name, nat>, before: map<Name, nat>, after: map<Name, nat>, name: Name)
    requires GeometryOk(g) && |v.d| == |u.d| == |w.d| == g.blocks && Accounted(g, v, u, p, names, before, name)
    requires Accounted(g, u, w, p, before, after, name)
    ensures Accounted(g, v, w, p, names, after, name)
  {
    hide FreeBlocks, FreeInodes, Reach;
    if u.own == v.own { SameReach(v, u); }
  }

  lemma SameReach(v: Vol, u: Vol)
    requires u.own == v.own
    ensures forall m :: Reach(u, m) == Reach(v, m)
  {
  }

  /** A single write, in the terms of the account. */
  lemma AccountedWrite(g: Geometry, v: Vol, w: Vol, p: nat, before: map<Name, nat>, after: map<Name, nat>, name: Name)
    requires GeometryOk(g) && |v.d| == |w.d| == g.blocks && p in v.files && name in after
    requires name in before ==> after == before && Conserved(g, v, w, after[name]) && FreeInodes(g, w.d) == FreeInodes(g, v.d)
    requires name !in before ==> var t := after[name];
      && after == before[name := t] && t !in v.files && Founded(g, v, w, p, t)
      && t in FreeInodes(g, v.d) && FreeInodes(g, w.d) == FreeInodes(g, v.d) - {t}
    ensures Accounted(g, v, w, p, before, after, name)
  {
    hide Conserved, Founded, FreeInodes;
  }

  /** The file is removed (`u` to `w`): its blocks and its number come back. */
  lemma AccountedEnd(g: Geometry, v: Vol, u: Vol, w: Vol, p: nat, names: map<Name, nat>, after: map<Name, nat>, name: Name)
    requires GeometryOk(g) && |v.d| == |u.d| == |w.d| == g.blocks && Accounted(g, v, u, p, names, after, name) && name in after
    requires FreeBlocks(g, w.d) == FreeBlocks(g, u.d) + Reach(u, after[name]) && FreeInodes(g, w.d) == FreeInodes(g, u.d) + {after[name]}
    requires forall m :: m != after[name] ==> Reach(w, m) == Reach(u, m)
    ensures after - {name} == names - {name}
    ensures name in names ==> FreeBlocks(g, w.d) == FreeBlocks(g, v.d) + Reach(v, names[name]) && FreeInodes(g, w.d) == FreeInodes(g, v.d) + {names[name]}
    ensures name !in names ==>
      FreeBlocks(g, w.d) + Reach(w, p) == FreeBlocks(g, v.d) + Reach(v, p) && FreeInodes(g, w.d) == FreeInodes(g, v.d)
  {
    hide FreeBlocks, FreeInodes, Reach;
  }

  /** The most blocks that a write of `len` bytes can take: three for each block it touches. */
  function Cost(len: nat): nat {
    3 * (len / BLOCK + 2)
  }

  /** How far the write loop is after so many turns: all but the first and the last fill a block. */
  ghost predicate Turns(off: nat, len: nat, written: nat, turns: nat) {
    if turns == 0 then written == 0
    else if written < len then (off + written) % BLOCK == 0 && turns * BLOCK < written + BLOCK
    else turns * BLOCK < len + 2 * BLOCK
  }

  lemma NoTurns(off: nat, len: nat)
    ensures Turns(off, len, 0, 0)
  {
  }

  lemma TurnTaken(off: nat, len: nat, written: nat, turns: nat)
    requires Turns(off, len, written, turns) && written < len
    ensures var room := BLOCK - (off + written) % BLOCK; var take := if room <= len - written then room else len - written;
      0 < take && Turns(off, len, written + take, turns + 1) && 3 * turns + 3 <= Cost(len)
  {
    var room := BLOCK - (off + written) % BLOCK;
    if room <= len - written { assert (off + written + room) % BLOCK == 0; }
  }

  lemma TurnsDone(off: nat, len: nat, turns: nat)
    requires Turns(off, len, len, turns)
    ensures 3 * turns <= Cost(len)
  {
  }

  /** Why a block could not be had: none is free, or the file would outgrow its tree. */
  ghost predicate NoBlock(g: Geometry, d: Disk, e: FsError, end: nat)
    requires GeometryOk(g) && |d| == g.blocks
  {
    (e == NoSpace && FreeBlocks(g, d) == {}) || (e == NotSupported && end > MAX_BYTES)
  }

  ghost predicate NoRoom(g: Geometry, d: Disk, e: FsError, end: nat)
    requires GeometryOk(g) && |d| == g.blocks
  {
    NoBlock(g, d, e, end) || (e == NoSpace && FreeInodes(g, d) == {})
  }

  /**
   After a write to file `n`, whose bytes were `was`: its size, and whether its bytes are the
   overlay, cut at that size. For offsets below the wrap there is nothing to cut.
   */
  ghost predicate Written(w: Vol, n: nat, was: seq<byte>, off: nat, buf: seq<byte>, overlaid: bool)
    requires n in w.files && |w.files[n].blocks| == 15
  {
    && w.files[n].size == SizeAfter(|was|, off, off % WRAP, |buf|) <= MAX_BYTES
    && w.files[n].size <= |Overlay(was, off % WRAP, buf)|
    && (overlaid <==> Content(w, n) == Overlay(was, off % WRAP, buf)[..w.files[n].size])
  }

  /** The loop laid the bytes (`v` to `w`), then the inode was stored (`w` to `x`). */
  lemma WrittenBytes(g: Geometry, v: Vol, w: Vol, x: Vol, n: nat, off: nat, buf: seq<byte>)
    requires GeometryOk(g) && |v.d| == |w.d| == g.blocks && InodesOk(v) && Wrote(g, v, w, n, off % WRAP, buf)
    requires n in v.files && n in x.files && InodeOk(x.files[n]) && buf != []
    requires v.files[n].size <= MAX_BYTES && off % WRAP + |buf| <= MAX_BYTES
    requires x.files[n].size == SizeAfter(v.files[n].size, off, off % WRAP, |buf|)
    requires forall s :: SlotOk(s) && !IsTable(s) ==> DataAt(x, n, s) == DataAt(w, n, s)
    ensures Laid(v, x, n, off % WRAP, buf)
    ensures Written(x, n, Content(v, n), off, buf, GapZero(v, n, off % WRAP))
    ensures TailZero(v, n) ==> GapZero(v, n, off % WRAP)
    ensures TailZero(v, n) && !Cuts(v.files[n].size, off, off % WRAP, |buf|) ==> TailZero(x, n)
  {
    hide Wrote, Laid, Content, Overlay, GapZero, TailZero, DataAt;
    WroteThen(g, v, w, x, n, off % WRAP, buf);
    WroteContent(v, x, n, off, off % WRAP, buf);
  }

  /** What directory `p`, the new file `t` and the free set hold together is what `p` and the free set held. */
  ghost predicate Founded(g: Geometry, v: Vol, w: Vol, p: nat, t: nat)
    requires GeometryOk(g) && |v.d| == |w.d| == g.blocks
  {
    && FreeBlocks(g, w.d) + Reach(w, p) + Reach(w, t) == FreeBlocks(g, v.d) + Reach(v, p)
    && forall m :: m != p && m != t ==> Reach(w, m) == Reach(v, m)
  }

  lemma FoundedBoth(g: Geometry, v: Vol, u: Vol, w: Vol, p: nat, t: nat)
    requires GeometryOk(g) && |v.d| == |u.d| == |w.d| == g.blocks && t != p
    requires Conserved(g, v, u, p) && Reach(u, t) == {} && (Conserved(g, u, w, t) || w == u)
    ensures Founded(g, v, w, p, t)
  {
    hide FreeBlocks, Reach;
  }

  /** A directory joined with its block (`v` to `u`) and was named in `p` (`u` to `w`). */
  lemma FoundedDir(g: Geometry, v: Vol, u: Vol, w: Vol, p: nat, t: nat)
    requires GeometryOk(g) && |v.d| == |u.d| == |w.d| == g.blocks && TreeOk(g, v) && t !in v.files && t != p
    requires Conserved(g, v, u, t) && Conserved(g, u, w, p)
    ensures Founded(g, v, w, p, t)
  {
    hide FreeBlocks, Reach, TreeOk;
    NoReach(g, v, t);
  }

  lemma NumberedFresh(g: Geometry, v: Vol, w: Vol, home: map<nat, nat>, torn: set<nat>, t: nat)
    requires GeometryOk(g) && |v.d| == |w.d| == g.blocks && InodesOk(v) && InodesOk(w) && VolOk(g, v, home, torn) && Numbered(g, v, w, t)
    ensures t !in v.files && 1 <= t <= g.inodes
  {
    hide VolOk, DataAt, BlockOf;
    FreshNumber(g, v, home, torn, t);
  }

  /** The inode joined (`v` to `w`), its tree grew (`w` to `x`), and it was stored (`x` to `u`). */
  lemma BornConserves(g: Geometry, v: Vol, w: Vol, x: Vol, u: Vol, t: nat, freeBlocks: nat)
    requires GeometryOk(g) && |v.d| == |w.d| == |x.d| == |u.d| == g.blocks
    requires w.own == v.own && FreeBlocks(g, w.d) == FreeBlocks(g, v.d) && Extends(g, w, x, t)
    requires u.own == x.own && FreeBlocks(g, u.d) == FreeBlocks(g, x.d)
    requires SpaceOk(g, w, |FreeBlocks(g, w.d)|) && SpaceOk(g, u, freeBlocks)
    ensures Conserved(g, v, u, t)
  {
    hide FreeBlocks, Extends, SpaceOk, Conserved;
    ExtendsConserves(g, w, x, u, t, freeBlocks);
    SameConserved(g, v, w, u, t);
  }

  /** A file without blocks joined (`v` to `u`) and was named in `p` (`u` to `w`). */
  lemma FoundedEmpty(g: Geometry, v: Vol, u: Vol, w: Vol, p: nat, t: nat)
    requires GeometryOk(g) && |v.d| == |u.d| == |w.d| == g.blocks && TreeOk(g, v) && t !in v.files && p in v.files
    requires u.own == v.own && FreeBlocks(g, u.d) == FreeBlocks(g, v.d) && Conserved(g, u, w, p)
    ensures Conserved(g, v, w, p) && Reach(w, t) == {}
  {
    hide FreeBlocks, Owned, Exact;
    NoReach(g, v, t);
    SameConserved(g, v, u, w, p);
  }

  lemma CutBytes(v: Vol, w: Vol, t: nat, now: seq<byte>)
    requires t in v.files && t in w.files && InodeOk(v.files[t]) && InodeOk(w.files[t]) && v.files[t].size == 2 && Content(v, t)[1] != 0
    requires Laid(v, w, t, WRAP % WRAP, [120]) && Written(w, t, Content(v, t), WRAP, [120], true) && now == Content(w, t)
    ensures now == [120] && w.files[t].size == 1 && !GapZero(w, t, 3 % WRAP)
  {
    hide ByteAt;
    assert ByteAt(w, t, 1) == ByteAt(v, t, 1) == Content(v, t)[1];
  }

  /** A file whose second byte is not zero has its first block. */
  lemma FirstBlockThere(v: Vol, t: nat)
    requires t in v.files && InodeOk(v.files[t]) && v.files[t].size == 2 && Content(v, t)[1] != 0
    ensures BlockOf(v, t, SlotOf(0)) != 0 && Mapped(v, t, WRAP % WRAP, 1)
  {
    assert Content(v, t)[1] == ByteAt(v, t, 1);
  }

  lemma FirstBlockStays(g: Geometry, v: Vol, w: Vol, t: nat)
    requires TreeOk(g, v) && TreeOk(g, w) && w.own == v.own && t in v.files && t in w.files && Mapped(v, t, WRAP % WRAP, 1)
    ensures Mapped(w, t, 3 % WRAP, 1)
  {
    hide TreeOk, BlockOf;
    TreeInodes(g, v);
    TreeInodes(g, w);
    StillMapped(g, v, w, t, 0, 1, 0);
    assert forall pos: nat :: 3 <= pos < 4 ==> pos / BLOCK == 0;
  }

  lemma Regrown(w: Vol, t: nat)
    requires t in w.files && |w.files[t].blocks| == 15 && Written(w, t, [120], 3, [121], false)
    ensures w.files[t].size <= MAX_BYTES && Content(w, t) != Overlay([120], 3, [121])
  {
    hide Content;
  }

  lemma TreeInodes(g: Geometry, v: Vol)
    requires TreeOk(g, v)
    ensures InodesOk(v)
  {
    hide Owned, Exact;
  }

  lemma SameFile(g: Geometry, v: Vol, w: Vol, n: nat, base: nat, buf: seq<byte>)
    requires GeometryOk(g) && |v.d| == |w.d| == g.blocks && Wrote(g, v, w, n, base, buf)
    ensures w.files.Keys == v.files.Keys && w.files[n].size == v.files[n].size && w.files[n].mode == v.files[n].mode
  {
    hide Laid, DataAt;
  }

  lemma SameFreeSet(g: Geometry, v: Vol, w: Vol, n: nat, freeBlocks: nat)
    requires GeometryOk(g) && |v.d| == |w.d| == g.blocks && Conserved(g, v, w, n) && w.own == v.own
    requires SpaceOk(g, v, |FreeBlocks(g, v.d)|) && SpaceOk(g, w, freeBlocks)
    ensures FreeBlocks(g, w.d) == FreeBlocks(g, v.d)
  {
    hide FreeBlocks, IsMeta;
    assert Reach(w, n) == Reach(v, n);
    forall b ensures b in FreeBlocks(g, w.d) <==> b in FreeBlocks(g, v.d) {
      assert b in FreeBlocks(g, w.d) + Reach(w, n) <==> b in FreeBlocks(g, v.d) + Reach(v, n);
    }
  }

  lemma ChunkMapped(g: Geometry, v: Vol, w: Vol, n: nat, base: nat, len: nat, pos: nat)
    requires GeometryOk(g) && |v.d| == |w.d| == g.blocks && TreeOk(g, v) && TreeOk(g, w) && Kept(g, v, w, n)
    requires n in v.files && n in w.files && Mapped(v, n, base, len) && base <= pos < base + len
    ensures pos / BLOCK < MAX_BLOCKS && BlockOf(w, n, SlotOf(pos / BLOCK)) != 0
  {
    hide TreeOk, BlockOf, SlotOf, Mapped, Grown;
    StillMapped(g, v, w, n, base, len, pos);
  }

  /** What a finished write of `buf` at `off` did to file `n`, and to all others. */
  ghost predicate Finished(g: Geometry, v: Vol, x: Vol, n: nat, off: nat, buf: seq<byte>, torn: set<nat>, torn': set<nat>)
    requires GeometryOk(g) && |v.d| == |x.d| == g.blocks && InodesOk(v) && InodesOk(x) && n in v.files && n in x.files
  {
    && v.files[n].size <= MAX_BYTES && x.files[n].size <= MAX_BYTES
    && SameBut(v, x, n) && Conserved(g, v, x, n) && FreeInodes(g, x.d) == FreeInodes(g, v.d)
    && Laid(v, x, n, off % WRAP, buf) && Written(x, n, Content(v, n), off, buf, GapZero(v, n, off % WRAP))
    && (n !in torn ==> GapZero(v, n, off % WRAP))
    && (off < WRAP && n !in torn ==> n !in torn' && Content(x, n) == Overlay(Content(v, n), off, buf))
  }

  /** A finished write leaves a sound volume, with every block accounted for. */
  lemma FinishedOk(g: Geometry, v: Vol, w: Vol, x: Vol, home: map<nat, nat>, torn: set<nat>, torn': set<nat>, n: nat, off: nat, buf: seq<byte>, freeBlocks: nat)
    requires GeometryOk(g) && |v.d| == |w.d| == |x.d| == g.blocks && InodesOk(v) && InodesOk(w) && InodesOk(x)
    requires VolOk(g, v, home, torn) && n in v.files && !IsDirectory(v.files[n]) && buf != [] && off % WRAP + |buf| <= MAX_BYTES
    requires Kept(g, v, w, n) && Wrote(g, v, w, n, off % WRAP, buf) && SpaceOk(g, v, |FreeBlocks(g, v.d)|) && SpaceOk(g, x, freeBlocks)
    requires n in w.files && n in x.files && x.files == w.files[n := x.files[n]] && x.d == PutInode(g, w.d, n, x.files[n]) && x.own == w.own
    requires forall m, s :: m in w.files && SlotOk(s) && !IsTable(s) ==> DataAt(x, m, s) == DataAt(w, m, s)
    requires FreeBlocks(g, x.d) == FreeBlocks(g, w.d) && FreeInodes(g, x.d) == FreeInodes(g, w.d)
    requires x.files[n].mode == v.files[n].mode && x.files[n].size == SizeAfter(v.files[n].size, off, off % WRAP, |buf|)
    requires torn' == torn + if Cuts(v.files[n].size, off, off % WRAP, |buf|) then {n} else {}
    ensures VolOk(g, x, home, torn') && Finished(g, v, x, n, off, buf, torn, torn')
  {
    hide VolOk, DataAt, SameInodesBut, Grown, SameInodeArea, SpaceKept, IsMeta, PutInode, Wrote, Laid, TailZero,
         Content, GapZero, FreeInodes, Written, FreeBlocks, JoinedOnly, SpaceOk, Conserved, SameBut;
    WroteSize(g, v, w, n, off % WRAP, buf);
    TailOfUntorn(g, v, home, torn, n);
    SameInodeAreaSame(g, v.d, w.d);
    WrittenBytes(g, v, w, x, n, off, buf);
    CommitOk(g, v, w, x, home, torn, torn', n);
    KeptConserves(g, v, w, x, n, freeBlocks);
    if off < WRAP && n !in torn {
      WrittenWhole(x, n, Content(v, n), off, buf);
    }
  }

  lemma WrittenWhole(w: Vol, n: nat, was: seq<byte>, off: nat, buf: seq<byte>)
    requires n in w.files && |w.files[n].blocks| == 15 && Written(w, n, was, off, buf, true) && off < WRAP
    ensures w.files[n].size <= MAX_BYTES && Content(w, n) == Overlay(was, off, buf)
  {
    hide Content, Overlay;
  }

  /** The live record of `from` has no room for `to`. */
  ghost predicate TooShort(es: seq<Rec>, from: Name, to: Name) {
    exists k :: 0 <= k < |es| && es[k].ino != 0 && es[k].name == from && es[k].len < Span(to)
  }

  /** A directory has one live record of a name, so that one decides. */
  lemma OnlyTooShort(files: map<nat, Inode>, home: map<nat, nat>, p: nat, es: seq<Rec>, k: nat, from: Name, to: Name)
    requires ListOk(files, home, p, Live(es)) && k < |es| && es[k].ino != 0 && es[k].name == from
    ensures TooShort(es, from, to) <==> es[k].len < Span(to)
  {
    hide Live, Span;
    if TooShort(es, from, to) {
      var j :| 0 <= j < |es| && es[j].ino != 0 && es[j].name == from && es[j].len < Span(to);
      if j < k {
        var a, b := LivePairOf(es, j, k);
      } else if k < j {
        var a, b := LivePairOf(es, k, j);
      }
    }
  }

  /** The inode after a write that ends at `end`: the size (cast to 32 bits) and the times. */
  function Stamped(ino: Inode, end: nat, now: nat): (r: Inode)
    requires InodeOk(ino) && now < 0x1_0000_0000
    ensures InodeOk(r) && r.blocks == ino.blocks && r.mode == ino.mode
    ensures r.size == if end > ino.size then end % 0x1_0000_0000 else ino.size
  {
    var sized := if end > ino.size then ino.(size := end % 0x1_0000_0000) else ino;
    if now != 0 then sized.(mtime := now, ctime := now, atime := now) else sized
  }

  /** A walk from record to record, starting at `o`, meets no bad length before the block has no room for a header. */
  predicate Walks(b: Block, o: nat)
    decreases BLOCK - o
  {
    o + 8 <= BLOCK ==>
      && 8 <= RecLen(b, o) && o + RecLen(b, o) <= BLOCK && (RecIno(b, o) != 0 ==> 8 + NameLen(b, o) <= RecLen(b, o))
      && Walks(b, o + RecLen(b, o))
  }

  /** Block `l` of directory `n` is there and has a record of bad length. */
  ghost predicate BadBlock(v: Vol, n: nat, l: nat)
    requires n in v.files && |v.files[n].blocks| == 15 && l < MAX_BLOCKS
  {
    BlockOf(v, n, SlotOf(l)) != 0 && !Walks(DataAt(v, n, SlotOf(l)), 0)
  }

  lemma EntriesNone(c: seq<byte>)
    ensures DirTiled(c) ==> EntriesTo(c, 0) == []
  {
  }

  lemma AllEntries(c: seq<byte>)
    ensures DirTiled(c) ==> Entries(c) == EntriesTo(c, |c| / BLOCK)
  {
  }

  /** One block of a directory: its data, and in a tiled directory its records. */
  lemma DirBlock(v: Vol, n: nat, l: nat)
    requires n in v.files && |v.files[n].blocks| == 15 && v.files[n].size <= MAX_BYTES && BLOCK * (l + 1) <= v.files[n].size
    ensures l < MAX_BLOCKS && (BlockOf(v, n, SlotOf(l)) == 0 ==> !BadBlock(v, n, l))
    ensures BlockOf(v, n, SlotOf(l)) != 0 ==> (BadBlock(v, n, l) <==> !Walks(DataAt(v, n, SlotOf(l)), 0))
    ensures DirTiled(Content(v, n)) ==> var c := Content(v, n); var b := DataAt(v, n, SlotOf(l));
      && BlockOf(v, n, SlotOf(l)) != 0 && Tiles(b, 0, BLOCK)
      && EntriesTo(c, l + 1) == EntriesTo(c, l) + Recs(b, 0, BLOCK, BLOCK * l)
  {
    hide SlotOf, DataAt, Content, Tiles, Recs, Chunk, Walks, BlockOf;
    ChunkIsData(v, n, l);
    if DirTiled(Content(v, n)) {
      TiledIsMapped(v, n, l);
    }
  }

  /** Parse one directory block, record by record. It fails exactly where a record has a bad length. */
  method ParseBlock(buf: Block, base: nat) returns (r: Result<seq<Rec>>)
    ensures Tiles(buf, 0, BLOCK) ==> r == Ok(Recs(buf, 0, BLOCK, base))
    ensures r.Err? <==> !Walks(buf, 0)
    ensures r.Err? ==> r.error == BadFs
  {
    hide Tiles, Recs, RecLen, RecIno, NameLen, Walks;
    var out: seq<Rec> := [];
    var off := 0;
    while off + 8 <= BLOCK
      invariant 0 <= off <= BLOCK
      invariant Tiles(buf, 0, BLOCK) ==> Tiles(buf, off, BLOCK) && Recs(buf, 0, BLOCK, base) == out + Recs(buf, off, BLOCK, base)
      invariant Walks(buf, 0) <==> Walks(buf, off)
    {
      TilesHead(buf, off, base);
      WalksHead(buf, off);
      var rec := RecLen(buf, off);
      if rec < 8 || off + rec > BLOCK {
        return Err(BadFs);
      }
      var ino := RecIno(buf, off);
      var nlen := NameLen(buf, off);
      if ino != 0 && 8 + nlen > rec {
        return Err(BadFs);
      }
      var name := if ino != 0 then buf[off + 8..off + 8 + nlen] else [];
      out := out + [Rec(ino, name, rec, base + off)];
      off := off + rec;
    }
    TilesEnd(buf, off, base);
    WalksEnd(buf, off);
    assert out + [] == out;
    return Ok(out);
  }

  lemma WalksHead(b: Block, o: nat)
    requires o + 8 <= BLOCK
    ensures Walks(b, o) <==>
      (&& 8 <= RecLen(b, o) && o + RecLen(b, o) <= BLOCK && (RecIno(b, o) != 0 ==> 8 + NameLen(b, o) <= RecLen(b, o))
       && Walks(b, o + RecLen(b, o)))
  {
    hide RecLen, RecIno, NameLen;
  }

  lemma WalksEnd(b: Block, o: nat)
    requires BLOCK < o + 8
    ensures Walks(b, o)
  {
  }

  lemma TilesHead(b: Block, o: nat, base: nat)
    requires o + 8 <= BLOCK
    ensures Tiles(b, o, BLOCK) ==>
      && RecOk(b, o, BLOCK) && Tiles(b, o + RecLen(b, o), BLOCK)
      && Recs(b, o, BLOCK, base) == [RecAt(b, o, base)] + Recs(b, o + RecLen(b, o), BLOCK, base)
  {
    hide U16At, U32At;
  }

  lemma TilesEnd(b: Block, o: nat, base: nat)
    requires BLOCK < o + 8 && o <= BLOCK
    ensures Tiles(b, o, BLOCK) ==> Recs(b, o, BLOCK, base) == []
  {
    hide U16At, U32At;
  }

  /** One step of a lookup: the head record answers, or the rest does. */
  lemma LookupStep(es: seq<Rec>, name: Name)
    requires es != []
    ensures var m, t := NameMap(Live(es)), NameMap(Live(es[1..]));
      if es[0].ino != 0 && es[0].name == name then name in m && m[name] == es[0].ino
      else (name in m <==> name in t) && (name in m ==> m[name] == t[name])
  {
    var ls := Live(es);
    if es[0].ino != 0 {
      assert ls[1..] == Live(es[1..]);
    }
  }

  /** A disk that differs only in the superblock, the descriptor and the inode bitmap. */
  lemma MetaOnly(g: Geometry, v: Vol, d: Disk, freeBlocks: nat)
    requires GeometryOk(g) && |v.d| == |d| == g.blocks && TreeOk(g, v) && SpaceOk(g, v, freeBlocks)
    requires forall b :: 0 <= b < |d| && b != 1 && b != 2 && b != g.inodeBitmap ==> d[b] == v.d[b]
    ensures TreeOk(g, v.(d := d)) && SameData(v, v.(d := d)) && SpaceOk(g, v.(d := d), freeBlocks)
  {
    hide FreeNumbers, Owned;
    OwnedBlocksFixData(g, v, d);
    assert FreeBlocks(g, d) == FreeBlocks(g, v.d);
  }

  /** Failing after the inode number was taken loses the number and nothing else. */
  lemma NumberLost(g: Geometry, v: Vol, w: Vol, home: map<nat, nat>, torn: set<nat>, t: nat, freeBlocks: nat)
    requires GeometryOk(g) && |v.d| == |w.d| == g.blocks && TreeOk(g, v) && w == v.(d := w.d)
    requires VolOk(g, v, home, torn) && FreeInodes(g, w.d) == FreeInodes(g, v.d) - {t}
    requires forall b :: 0 <= b < |w.d| && b != 1 && b != 2 && b != g.inodeBitmap ==> w.d[b] == v.d[b]
    requires SpaceOk(g, v, freeBlocks)
    ensures TreeOk(g, w) && SpaceOk(g, w, freeBlocks)
    ensures VolOk(g, w, home, torn) && forall m :: m in v.files ==> Unchanged(v, w, m)
  {
    hide Owned, Exact, VolOk, FreeInodes, InodeAt, DataAt, Unchanged, SpaceOk;
    MetaOnly(g, v, w.d, freeBlocks);
    InodeTableSame(g, v.d, w.d);
    VolOkSame(g, v, w, home, torn);
  }

  lemma DotsWritten(g: Geometry, x: Vol, y: Vol, t: nat, p: nat, b: nat, freeBlocks: nat)
    requires GeometryOk(g) && |x.d| == |y.d| == g.blocks && TreeOk(g, x) && SpaceOk(g, x, freeBlocks)
    requires t in x.files && BlockOf(x, t, Direct(0)) == b != 0 && b < g.blocks && !IsMeta(g, b)
    requires t < 0x1_0000_0000 && p < 0x1_0000_0000 && y == x.(d := x.d[b := DotsBlock(t, p)])
    ensures TreeOk(g, y) && SpaceOk(g, y, freeBlocks) && y.d[1] == x.d[1]
    ensures FreeInodes(g, y.d) == FreeInodes(g, x.d) && FreeBlocks(g, y.d) == FreeBlocks(g, x.d)
  {
    hide Owned, Exact, DotsBlock, SpaceOk, FreeInodes, DataAt, BlockOf, IsMeta;
    DataWrite(g, x, t, Direct(0), DotsBlock(t, p));
    NotMetaWrite(g, x.d, b, DotsBlock(t, p));
    SameBitmaps(g, x, y, freeBlocks);
  }

  lemma SameBitmap(g: Geometry, d: Disk, e: Disk)
    requires GeometryOk(g) && |d| == |e| == g.blocks && e[g.inodeBitmap] == d[g.inodeBitmap]
    ensures FreeInodes(g, e) == FreeInodes(g, d)
  {
  }

  lemma SameBlockBitmap(g: Geometry, d: Disk, e: Disk)
    requires GeometryOk(g) && |d| == |e| == g.blocks && e[g.blockBitmap] == d[g.blockBitmap]
    ensures FreeBlocks(g, e) == FreeBlocks(g, d)
  {
  }

  /** An edit of a directory block keeps everything the allocator relies on. */
  lemma EditedInv(g: Geometry, v: Vol, w: Vol, n: nat, es: seq<Rec>, freeBlocks: nat)
    requires GeometryOk(g) && |v.d| == |w.d| == g.blocks && InodesOk(v) && InodesOk(w) && n in v.files && v.files[n].size <= MAX_BYTES
    requires SpaceOk(g, v, freeBlocks) && Edited(g, v, w, n, es)
    ensures SpaceOk(g, w, freeBlocks) && FreeBlocks(g, w.d) == FreeBlocks(g, v.d) && FreeInodes(g, w.d) == FreeInodes(g, v.d)
    ensures w.d[1] == v.d[1] && w.files == v.files
  {
    hide SpaceOk, FreeBlocks, InodeAt, TailZero, Content, Entries, DirTiled, SameBut;
    SameBitmaps(g, v, w, freeBlocks);
  }

  /** Record freed (`v` to `u`), blocks returned (`u` to `w`), inode returned (`w` to `x`). */
  lemma UnlinkedState(g: Geometry, v: Vol, u: Vol, w: Vol, x: Vol, home: map<nat, nat>, torn: set<nat>, p: nat, k: nat, t: nat, name: Name)
    requires GeometryOk(g) && |v.d| == |u.d| == |w.d| == |x.d| == g.blocks
    requires InodesOk(v) && InodesOk(u) && InodesOk(w) && InodesOk(x)
    requires VolOk(g, v, home, torn) && p in v.files && IsDirectory(v.files[p]) && DirOk(v, home, p)
    requires t in v.files && !IsDirectory(v.files[t]) && t != 0
    requires k < |Entries(Content(v, p))| && Entries(Content(v, p))[k].ino == t && Entries(Content(v, p))[k].name == name
    requires Edited(g, v, u, p, FreeRecord(Entries(Content(v, p)), k))
    requires w.files == u.files - {t} && x.files == w.files
    requires forall m, s :: m in w.files && SlotOk(s) && !IsTable(s) ==> DataAt(w, m, s) == DataAt(u, m, s)
    requires SameData(w, x)
    requires forall b :: 0 <= b < g.blocks && b != g.blockBitmap ==> w.d[b] == u.d[b]
    requires forall b :: 0 <= b < g.blocks && b != 1 && b != 2 && b != g.inodeBitmap ==> x.d[b] == w.d[b]
    requires FreeInodes(g, x.d) == FreeInodes(g, v.d) + {t}
    ensures VolOk(g, x, home, torn - {t}) && p in x.files && x.files[p].size <= MAX_BYTES && DirTiled(Content(x, p))
    ensures DirMap(x, p) == DirMap(v, p) - {name}
    ensures OthersKept(v, x, {p, t})
  {
    hide InodeAt, FreeInodes, TailZero, Content, Entries, DirTiled, DataAt, DirMap, VolOk, DirOk, FreeRecord;
    InodeTableSame(g, u.d, w.d);
    InodeTableSame(g, w.d, x.d);
    UnlinkedOk(g, v, u, x, home, torn, p, k, t);
  }

  lemma RenamedState(g: Geometry, v: Vol, w: Vol, home: map<nat, nat>, torn: set<nat>, p: nat, k: nat, to: Name)
    requires GeometryOk(g) && |v.d| == |w.d| == g.blocks && InodesOk(v) && InodesOk(w)
    requires VolOk(g, v, home, torn) && p in v.files && IsDirectory(v.files[p]) && DirOk(v, home, p)
    requires k < |Entries(Content(v, p))| && Entries(Content(v, p))[k].ino != 0
    requires !IsDot(Entries(Content(v, p))[k].name) && !IsDot(to) && to !in DirMap(v, p)
    requires Edited(g, v, w, p, RenameRecord(Entries(Content(v, p)), k, to))
    ensures VolOk(g, w, home, torn) && DirTiled(Content(w, p)) && OthersKept(v, w, {p})
    ensures var e := Entries(Content(v, p))[k]; DirMap(w, p) == (DirMap(v, p) - {e.name})[to := e.ino]
  {
    hide InodeAt, FreeInodes, TailZero, Content, Entries, DirTiled, DataAt, DirMap, VolOk, DirOk, RenameRecord, SameBut, IsDot;
    RenamedOk(g, v, w, home, torn, p, k, to);
    SameButKept(v, w, p);
  }

  /** A block that is there has its tables. */
  lemma TablesThere(d: Disk, tops: seq<nat>, idx: nat)
    requires idx < DIRECT + PTRS && |tops| == 15
    ensures DIRECT <= idx && At(d, tops, SlotOf(idx)) != 0 ==> At(d, tops, SingleTable) != 0
  {
  }

  lemma DoubleThere(d: Disk, tops: seq<nat>, idx: nat)
    requires DIRECT + PTRS <= idx < MAX_BLOCKS && |tops| == 15
    ensures var k, j := (idx - DIRECT - PTRS) / PTRS, (idx - DIRECT - PTRS) % PTRS;
      && k < PTRS && SlotOf(idx) == Double(k, j)
      && (At(d, tops, SlotOf(idx)) != 0 ==> At(d, tops, DoubleTable) != 0 && At(d, tops, Mid(k)) != 0)
  {
  }

  lemma AtTop(v: Vol, t: nat, i: nat)
    requires t in v.files && |v.files[t].blocks| == 15 && i < 14
    ensures BlockOf(v, t, TopSlot(i)) == v.files[t].blocks[i]
  {
  }

  lemma HolesUnder(v: Vol, t: nat)
    requires t in v.files && |v.files[t].blocks| == 15
    ensures v.files[t].blocks[12] == 0 ==> forall s :: SlotOk(s) && 12 <= Rank(s) < 269 ==> BlockOf(v, t, s) == 0
    ensures v.files[t].blocks[13] == 0 ==> forall s :: SlotOk(s) && 269 <= Rank(s) ==> BlockOf(v, t, s) == 0
  {
  }

  lemma HolesUnderMid(v: Vol, t: nat, k: nat)
    requires t in v.files && |v.files[t].blocks| == 15 && k < PTRS && BlockOf(v, t, Mid(k)) == 0
    ensures forall s :: SlotOk(s) && 269 + 257 * k <= Rank(s) < 269 + 257 * (k + 1) ==> BlockOf(v, t, s) == 0
  {
  }

  lemma NoDuplicatesOf(v: Vol, t: nat, out: seq<nat>)
    requires t in v.files && |v.files[t].blocks| == 15 && Collected(v, t, out, ALL_SLOTS)
    ensures NoDuplicates(out)
  {
  }

  /** The clearing loop of `free_inode_blocks`: each set bit of the list is cleared and counted. */
  method ClearBits(bits0: Block, list: seq<nat>, limit: nat, count0: nat) returns (bits: Block, count: nat)
    requires limit <= BITS && count0 == |FreeNumbers(bits0, limit)|
    requires forall b :: b in list ==> 1 <= b <= limit
    ensures FreeNumbers(bits, limit) == FreeNumbers(bits0, limit) + Elements(list)
    ensures count == |FreeNumbers(bits, limit)|
  {
    hide FreeNumbers, Elements, Used, Unmark;
    bits, count := bits0, count0;
    assert FreeNumbers(bits, limit) == FreeNumbers(bits0, limit) + Elements(list[..0]) by { FreeNone(bits0, limit, list); }
    for i := 0 to |list|
      invariant FreeNumbers(bits, limit) == FreeNumbers(bits0, limit) + Elements(list[..i])
      invariant count == |FreeNumbers(bits, limit)|
    {
      var b := list[i];
      assert 1 <= b <= limit by { assert b in list; }
      FreeNext(bits0, bits, limit, list, i);
      if Used(bits, b - 1) {
        bits := Unmark(bits, b - 1);
        count := count + 1;
      }
    }
    assert list[..|list|] == list;
  }

  lemma FreeNone(bits: Block, limit: nat, list: seq<nat>)
    requires limit <= BITS
    ensures FreeNumbers(bits, limit) == FreeNumbers(bits, limit) + Elements(list[..0])
  {
    hide FreeNumbers;
  }

  /** One more block of the list: its bit is clear afterwards, and was counted if it was set. */
  lemma FreeNext(bits0: Block, bits: Block, limit: nat, list: seq<nat>, i: nat)
    requires limit <= BITS && i < |list| && 1 <= list[i] <= limit
    requires FreeNumbers(bits, limit) == FreeNumbers(bits0, limit) + Elements(list[..i])
    ensures var b := list[i]; var c := if Used(bits, b - 1) then Unmark(bits, b - 1) else bits;
      && FreeNumbers(c, limit) == FreeNumbers(bits0, limit) + Elements(list[..i + 1])
      && |FreeNumbers(c, limit)| == |FreeNumbers(bits, limit)| + if Used(bits, b - 1) then 1 else 0
  {
    hide FreeNumbers, Used, Unmark;
    FreeOne(bits, limit, list[i]);
    assert Elements(list[..i + 1]) == Elements(list[..i]) + {list[i]};
  }

  lemma FreeCountFits(g: Geometry, v: Vol, freeBlocks: nat)
    requires GeometryOk(g) && |v.d| == g.blocks && SpaceOk(g, v, freeBlocks)
    ensures freeBlocks <= BITS
  {
    CountsFit(g, v.d);
  }

  lemma SpaceCount(g: Geometry, v: Vol, freeBlocks: nat)
    requires GeometryOk(g) && |v.d| == g.blocks && SpaceOk(g, v, freeBlocks)
    ensures freeBlocks == |FreeBlocks(g, v.d)|
  {
  }

  lemma NotFree(bm: Block, limit: nat, x: nat)
    requires 1 <= x <= limit <= BITS && x !in FreeNumbers(bm, limit)
    ensures !IsFree(bm, x)
  {
  }

  lemma FreeOne(bits: Block, limit: nat, b: nat)
    requires 1 <= b <= limit <= BITS
    ensures var c := if Used(bits, b - 1) then Unmark(bits, b - 1) else bits;
      && FreeNumbers(c, limit) == FreeNumbers(bits, limit) + {b}
      && |FreeNumbers(c, limit)| == |FreeNumbers(bits, limit)| + if Used(bits, b - 1) then 1 else 0
  {
    if Used(bits, b - 1) {
      UnmarkReturnsOne(bits, limit, b);
    } else {
      assert b in FreeNumbers(bits, limit);
    }
  }

  lemma ReachInVolume(g: Geometry, v: Vol, t: nat)
    requires TreeOk(g, v)
    ensures forall b :: b in Reach(v, t) ==> 1 <= b < |v.d| && !IsMeta(g, b)
  {
    hide Owned;
  }

  lemma DropEmpty(g: Geometry, v: Vol, t: nat, list: seq<nat>, freeBlocks: nat)
    requires GeometryOk(g) && |v.d| == g.blocks && TreeOk(g, v) && SpaceOk(g, v, freeBlocks)
    requires list == [] && forall b :: b in list <==> b in Reach(v, t)
    ensures TreeOk(g, Drop(v, v.d, t)) && SpaceOk(g, Drop(v, v.d, t), freeBlocks) && Reach(v, t) == {}
    ensures forall m, s :: m in v.files && m != t && SlotOk(s) && !IsTable(s) ==> DataAt(Drop(v, v.d, t), m, s) == DataAt(v, m, s)
  {
    hide Owned, Exact, FreeBlocks, IsMeta;
    DropOk(g, v, v.d, t);
    forall b ensures b !in Reach(v, t) { assert b !in list; }
  }

  /** Clearing the bits of a whole tree frees exactly its blocks. */
  lemma DroppedSpace(g: Geometry, v: Vol, d: Disk, t: nat, list: seq<nat>)
    requires GeometryOk(g) && |v.d| == |d| == g.blocks && TreeOk(g, v) && SpaceOk(g, v, |FreeBlocks(g, v.d)|)
    requires forall b :: b in list <==> b in Reach(v, t)
    requires forall b :: 0 <= b < |d| && b != g.blockBitmap ==> d[b] == v.d[b]
    requires FreeBlocks(g, d) == FreeBlocks(g, v.d) + Elements(list)
    ensures TreeOk(g, Drop(v, d, t)) && SpaceOk(g, Drop(v, d, t), |FreeBlocks(g, d)|)
    ensures FreeBlocks(g, d) == FreeBlocks(g, v.d) + Reach(v, t)
    ensures forall m, s :: m in v.files && m != t && SlotOk(s) && !IsTable(s) ==> DataAt(Drop(v, d, t), m, s) == DataAt(v, m, s)
  {
    hide Owned, Exact, FreeBlocks, DataAt, IsMeta, InodesOk;
    OwnedUnmarked(g, v, d);
    DropOk(g, v, d, t);
    ReachInVolume(g, v, t);
    assert Elements(list) == Reach(v, t);
  }

  lemma OwnedUnmarked(g: Geometry, v: Vol, d: Disk)
    requires GeometryOk(g) && |v.d| == |d| == g.blocks && TreeOk(g, v)
    requires forall b :: 0 <= b < |d| && b != g.blockBitmap ==> d[b] == v.d[b]
    ensures forall b :: b in v.own ==> d[b] == v.d[b]
  {
    hide Owned, BlockOf;
  }

  lemma WrapBlock(off: nat, k: nat)
    requires off % WRAP + k < WRAP
    ensures (off + k) / BLOCK % 0x1_0000_0000 == (off % WRAP + k) / BLOCK
    ensures (off + k) % BLOCK == (off % WRAP + k) % BLOCK
  {
    var q := off / WRAP;
    assert off == q * WRAP + off % WRAP;
    assert (off + k) / BLOCK == q * 0x1_0000_0000 + (off % WRAP + k) / BLOCK;
  }

  lemma WrapEnd(off: nat, k: nat)
    requires off % WRAP + k <= MAX_BYTES
    ensures (off + k) % 0x1_0000_0000 == off % WRAP + k
    ensures off < WRAP ==> off % WRAP == off
  {
    var q := off / WRAP;
    assert off == q * WRAP + off % WRAP;
    Low32(q * BLOCK, off % WRAP + k);
  }

  lemma Low32(a: nat, r: nat)
    requires r < 0x1_0000_0000
    ensures (a * 0x1_0000_0000 + r) % 0x1_0000_0000 == r
  {
  }

  lemma LowestIsInVolume(bits: Block, limit: nat, found: bool, i: nat)
    requires limit <= BITS && FreeNumbers(bits, limit) != {}
    requires found ==> i < BITS && !Used(bits, i) && forall j :: 0 <= j < i ==> Used(bits, j)
    requires !found ==> forall j :: 0 <= j < BITS ==> Used(bits, j)
    ensures found && i + 1 <= limit && IsFree(bits, i + 1)
  {
    var x :| x in FreeNumbers(bits, limit);
    assert IsFree(bits, x);
  }

  lemma NoneFree(g: Geometry, v: Vol, freeBlocks: nat)
    requires GeometryOk(g) && |v.d| == g.blocks && SpaceOk(g, v, freeBlocks) && freeBlocks == 0
    ensures FreeBlocks(g, v.d) == {}
  {
  }

  /** With a free block counted, the scan finds one, and it lies in the volume. */
  lemma FoundFree(g: Geometry, v: Vol, freeBlocks: nat, found: bool, i: nat)
    requires GeometryOk(g) && |v.d| == g.blocks && SpaceOk(g, v, freeBlocks) && freeBlocks > 0
    requires var bits := v.d[g.blockBitmap]; found ==> i < BITS && !Used(bits, i) && forall j :: 0 <= j < i ==> Used(bits, j)
    requires var bits := v.d[g.blockBitmap]; !found ==> forall j :: 0 <= j < BITS ==> Used(bits, j)
    ensures found && i + 1 in FreeBlocks(g, v.d)
  {
    hide Used, IsMeta;
    LowestIsInVolume(v.d[g.blockBitmap], g.blocks - 1, found, i);
  }

  /** The disk once free block `x` is marked and zeroed and the counts are persisted. */
  ghost predicate TookBlock(g: Geometry, v: Vol, d: Disk, x: nat)
    requires GeometryOk(g) && |v.d| == g.blocks
  {
    && |d| == g.blocks && 1 <= x < g.blocks
    && d[g.blockBitmap] == Mark(v.d[g.blockBitmap], x - 1) && d[x] == ZeroBlock()
    && forall b :: 0 <= b < |d| && b != 1 && b != 2 && b != g.blockBitmap && b != x ==> d[b] == v.d[b]
  }

  lemma AllocSpace(g: Geometry, v: Vol, d: Disk, x: nat)
    requires GeometryOk(g) && |v.d| == |d| == g.blocks && SpaceOk(g, v, |FreeBlocks(g, v.d)|)
    requires x in FreeBlocks(g, v.d) && TookBlock(g, v, d, x)
    ensures FreeBlocks(g, d) == FreeBlocks(g, v.d) - {x}
    ensures |FreeBlocks(g, d)| == |FreeBlocks(g, v.d)| - 1 && SpaceOk(g, v.(d := d), |FreeBlocks(g, v.d)| - 1)
  {
    MarkTakesOne(v.d[g.blockBitmap], g.blocks - 1, x);
    hide FreeNumbers, Mark, IsMeta;
  }

  /** Marking and zeroing a free block costs the free set that block, and no tree a byte. */
  lemma AllocEffect(g: Geometry, v: Vol, d: Disk, x: nat)
    requires GeometryOk(g) && |v.d| == |d| == g.blocks && TreeOk(g, v)
    requires SpaceOk(g, v, |FreeBlocks(g, v.d)|)
    requires x in FreeBlocks(g, v.d) && TookBlock(g, v, d, x)
    ensures TreeOk(g, v.(d := d)) && SameData(v, v.(d := d))
    ensures SameInodeArea(g, v.d, d) && FreeInodes(g, d) == FreeInodes(g, v.d)
    ensures Fresh(g, v.(d := d), x)
    ensures forall b :: b in v.own ==> d[b] == v.d[b]
  {
    FreeBounds(g, v, |FreeBlocks(g, v.d)|, x);
    hide FreeBlocks, FreeNumbers, Mark;
    OwnedBlocksFixData(g, v, d);
  }

  lemma FreeBounds(g: Geometry, v: Vol, freeBlocks: nat, b: nat)
    requires GeometryOk(g) && |v.d| == g.blocks && SpaceOk(g, v, freeBlocks) && b in FreeBlocks(g, v.d)
    ensures 1 <= b < g.blocks && !IsMeta(g, b) && b !in v.own && freeBlocks == |FreeBlocks(g, v.d)| >= 1
  {
  }

  /** Allocating a block (`v` to `w`) and hanging it off the inode is one growing step. */
  lemma LinkTopStep(g: Geometry, v: Vol, w: Vol, n: nat, i: nat, b: nat)
    requires GeometryOk(g) && |v.d| == |w.d| == g.blocks && w == v.(d := w.d)
    requires TreeOk(g, v) && TreeOk(g, w) && SpaceOk(g, w, |FreeBlocks(g, w.d)|)
    requires SameData(v, w) && SameInodeArea(g, v.d, w.d)
    requires Fresh(g, w, b) && b in FreeBlocks(g, v.d) && FreeBlocks(g, w.d) == FreeBlocks(g, v.d) - {b}
    requires n in v.files && i < 14 && v.files[n].blocks[i] == 0
    ensures var x := LinkTop(w, n, i, b);
      && TreeOk(g, x) && SpaceOk(g, x, |FreeBlocks(g, w.d)|) && Extends(g, v, x, n)
      && BlockOf(x, n, TopSlot(i)) == b
  {
    hide Owned, Exact, SameData, At, IsMeta, FreeBlocks, SpaceOk, SpaceKept;
    LinkTopExtends(g, w, n, i, b);
    SameDataTrans(v, w, LinkTop(w, n, i, b));
    SpaceAfterLink(g, v, w, LinkTop(w, n, i, b), b);
    LinkTopAt(g, w, n, i, b, n, TopSlot(i));
  }

  lemma LinkTableStep(g: Geometry, v: Vol, w: Vol, t: nat, k: nat, b: nat)
    requires GeometryOk(g) && |v.d| == |w.d| == g.blocks && w == v.(d := w.d)
    requires TreeOk(g, v) && TreeOk(g, w) && SpaceOk(g, w, |FreeBlocks(g, w.d)|)
    requires SameData(v, w) && SameInodeArea(g, v.d, w.d)
    requires Fresh(g, w, b) && b in FreeBlocks(g, v.d) && FreeBlocks(g, w.d) == FreeBlocks(g, v.d) - {b}
    requires t in v.own && IsTable(v.own[t].slot) && k < PTRS && Ptr(w.d, t, k) == 0
    ensures var x := LinkTable(w, t, k, b);
      && TreeOk(g, x) && SpaceOk(g, x, |FreeBlocks(g, w.d)|) && Extends(g, v, x, v.own[t].ino)
      && BlockOf(x, v.own[t].ino, Child(v.own[t].slot, k)) == b
      && x.d[1] == w.d[1] && x.d[g.inodeBitmap] == w.d[g.inodeBitmap]
  {
    hide Owned, Exact, SameData, At, FreeBlocks, SpaceOk, SpaceKept;
    LinkTableExtends(g, w, t, k, b);
    OwnerOf(g, w, t);
    SameDataTrans(v, w, LinkTable(w, t, k, b));
    SpaceAfterLink(g, v, w, LinkTable(w, t, k, b), b);
    LinkTableAt(g, w, t, k, b, v.own[t].ino, Child(v.own[t].slot, k));
  }

  lemma SameDataTrans(u: Vol, v: Vol, w: Vol)
    requires InodesOk(u) && InodesOk(v) && InodesOk(w) && SameData(u, v) && SameData(v, w)
    ensures SameData(u, w)
  {
  }

  lemma SpaceAfterLink(g: Geometry, v: Vol, w: Vol, x: Vol, b: nat)
    requires GeometryOk(g) && |v.d| == |w.d| == |x.d| == g.blocks
    requires v.own == w.own && x.own.Keys == w.own.Keys + {b} && x.d[g.blockBitmap] == w.d[g.blockBitmap]
    requires SpaceOk(g, w, |FreeBlocks(g, w.d)|)
    requires b in FreeBlocks(g, v.d) && FreeBlocks(g, w.d) == FreeBlocks(g, v.d) - {b}
    ensures SpaceOk(g, x, |FreeBlocks(g, w.d)|) && SpaceKept(g, v, x)
  {
    hide FreeBlocks, IsMeta;
    SameFree(g, x.d, w.d);
    MoveOne(FreeBlocks(g, v.d), v.own.Keys, x.own.Keys, b);
  }

  lemma MoveOne(free: set<nat>, taken: set<nat>, more: set<nat>, b: nat)
    requires b in free && more == taken + {b} && forall c :: c in taken ==> c !in free - {b}
    ensures (free - {b}) + more == free + taken
    ensures forall c :: c in more ==> c !in free - {b}
  {
  }

  lemma SameFree(g: Geometry, d: Disk, e: Disk)
    requires GeometryOk(g) && |d| == |e| == g.blocks && d[g.blockBitmap] == e[g.blockBitmap]
    ensures FreeBlocks(g, d) == FreeBlocks(g, e)
  {
  }

  lemma CountsFit(g: Geometry, d: Disk)
    requires GeometryOk(g) && |d| == g.blocks
    ensures |FreeBlocks(g, d)| <= BITS && |FreeInodes(g, d)| <= BITS
  {
    FreeNumbersBound(d[g.blockBitmap], g.blocks - 1);
    FreeNumbersBound(d[g.inodeBitmap], g.inodes);
  }

  lemma {:induction false} FreeNumbersBound(bm: Block, limit: nat)
    requires limit <= BITS
    ensures |FreeNumbers(bm, limit)| <= limit
  {
    if limit > 0 {
      FreeNumbersBound(bm, limit - 1);
      assert FreeNumbers(bm, limit) <= FreeNumbers(bm, limit - 1) + {limit};
      SubsetCardinality(FreeNumbers(bm, limit), FreeNumbers(bm, limit - 1) + {limit});
    } else {
      assert FreeNumbers(bm, limit) == {};
    }
  }

  lemma {:induction false} SubsetCardinality<T>(a: set<T>, b: set<T>)
    requires a <= b
    ensures |a| <= |b|
  {
    if a != {} {
      var x :| x in a;
      SubsetCardinality(a - {x}, b - {x});
    }
  }
}
