/**
 What the block trees hold: the data behind every slot, the bytes of a file, and the
 relations between volume states that the driver's steps establish.
 */
module Ext2Data {
  import opened Bytes
  import opened Ext2Layout
  import opened Ext2Tree

  const MAX_BYTES: nat := MAX_BLOCKS * BLOCK

  /** The data in slot `s` of file `n`; a hole reads as zeros. */
  function DataAt(v: Vol, n: nat, s: Slot): Block
    requires n in v.files && |v.files[n].blocks| == 15 && SlotOk(s)
  {
    var b := BlockOf(v, n, s);
    if b == 0 || b >= |v.d| then ZeroBlock() else v.d[b]
  }

  /** Byte `pos` of file `n`, whatever its size says. */
  function ByteAt(v: Vol, n: nat, pos: nat): byte
    requires n in v.files && |v.files[n].blocks| == 15 && pos < MAX_BYTES
  {
    DataAt(v, n, SlotOf(pos / BLOCK))[pos % BLOCK]
  }

  /** Bytes `lo..hi` of file `n`. */
  ghost function Range(v: Vol, n: nat, lo: nat, hi: nat): seq<byte>
    requires n in v.files && |v.files[n].blocks| == 15 && lo <= hi <= MAX_BYTES
  {
    seq<byte>(hi - lo, i requires 0 <= i < hi - lo => ByteAt(v, n, lo + i))
  }

  /** The contents of file `n`: its first `size` bytes. */
  ghost function Content(v: Vol, n: nat): (c: seq<byte>)
    requires n in v.files && |v.files[n].blocks| == 15 && v.files[n].size <= MAX_BYTES
    ensures |c| == v.files[n].size
  {
    Range(v, n, 0, v.files[n].size)
  }

  /** Blocks whose bitmap bit is clear. */
  ghost function FreeBlocks(g: Geometry, d: Disk): set<nat>
    requires GeometryOk(g) && |d| == g.blocks
  {
    FreeNumbers(d[g.blockBitmap], g.blocks - 1)
  }

  ghost function FreeInodes(g: Geometry, d: Disk): set<nat>
    requires GeometryOk(g) && |d| == g.blocks
  {
    FreeNumbers(d[g.inodeBitmap], g.inodes)
  }

  /** Everything in a tree, and all metadata, is marked used; the cached count is exact. */
  ghost predicate SpaceOk(g: Geometry, v: Vol, freeBlocks: nat)
    requires GeometryOk(g) && |v.d| == g.blocks
  {
    && (forall b :: b in v.own ==> b !in FreeBlocks(g, v.d))
    && (forall b :: b in FreeBlocks(g, v.d) ==> !IsMeta(g, b))
    && freeBlocks == |FreeBlocks(g, v.d)|
  }

  // ---- relations between states ----

  ghost predicate SameData(v: Vol, w: Vol)
    requires InodesOk(v) && InodesOk(w)
  {
    && v.files.Keys == w.files.Keys
    && forall n, s :: n in v.files && SlotOk(s) && !IsTable(s) ==> DataAt(w, n, s) == DataAt(v, n, s)
  }

  /** Nothing that hung in a tree moved. */
  ghost predicate Grown(v: Vol, w: Vol) {
    forall b :: b in v.own ==> b in w.own && w.own[b] == v.own[b]
  }

  /** Blocks that joined a tree joined the tree of `n`. */
  ghost predicate JoinedOnly(v: Vol, w: Vol, n: nat) {
    forall b :: b in w.own && b !in v.own ==> w.own[b].ino == n
  }

  /** Everything in the tree of `t`. */
  ghost function Reach(v: Vol, t: nat): set<nat> {
    set b | b in v.own && v.own[b].ino == t
  }

  /** Only file `n`'s pointers (and sector count) may differ. */
  ghost predicate SameInodesBut(v: Vol, w: Vol, n: nat) {
    && v.files.Keys == w.files.Keys
    && (forall m :: m in v.files && m != n ==> w.files[m] == v.files[m])
    && (n in v.files ==> w.files[n] == v.files[n].(blocks := w.files[n].blocks, sectors := w.files[n].sectors))
  }

  /** The inode table and the inode bitmap are untouched. */
  ghost predicate SameInodeArea(g: Geometry, d: Disk, e: Disk) {
    && |d| == |e|
    && forall b :: 0 <= b < |d| && (InTable(g, b) || b == g.inodeBitmap) ==> e[b] == d[b]
  }

  /** Free and owned blocks together are the same set: what leaves one enters the other. */
  ghost predicate SpaceKept(g: Geometry, v: Vol, w: Vol)
    requires GeometryOk(g) && |v.d| == |w.d| == g.blocks
  {
    FreeBlocks(g, w.d) + w.own.Keys == FreeBlocks(g, v.d) + v.own.Keys
  }

  /** `w` is `v` with the tree of `n` possibly grown by zeroed blocks; no file's bytes changed. */
  ghost predicate Extends(g: Geometry, v: Vol, w: Vol, n: nat)
    requires GeometryOk(g) && |v.d| == |w.d| == g.blocks
  {
    && InodesOk(v) && InodesOk(w)
    && SameData(v, w)
    && Grown(v, w)
    && JoinedOnly(v, w, n)
    && SameInodesBut(v, w, n)
    && SameInodeArea(g, v.d, w.d)
    && SpaceKept(g, v, w)
  }

  lemma ExtendsTrans(g: Geometry, u: Vol, v: Vol, w: Vol, n: nat)
    requires GeometryOk(g) && |u.d| == |v.d| == |w.d| == g.blocks
    requires Extends(g, u, v, n) && Extends(g, v, w, n)
    ensures Extends(g, u, w, n)
  {
  }

  lemma ExtendsRefl(g: Geometry, v: Vol, n: nat)
    requires GeometryOk(g) && |v.d| == g.blocks && InodesOk(v)
    ensures Extends(g, v, v, n)
  {
  }

  /** Linking a zeroed block shows no file a different byte. */
  lemma LinkTopExtends(g: Geometry, v: Vol, n: nat, i: nat, b: nat)
    requires GeometryOk(g) && |v.d| == g.blocks
    requires TreeOk(g, v) && n in v.files && i < 14 && Fresh(g, v, b)
    requires v.files[n].blocks[i] == 0
    ensures TreeOk(g, LinkTop(v, n, i, b)) && SameData(v, LinkTop(v, n, i, b))
  {
    var w := LinkTop(v, n, i, b);
    LinkTopOk(g, v, n, i, b);
    forall m, s | m in v.files && SlotOk(s) && !IsTable(s) ensures DataAt(w, m, s) == DataAt(v, m, s) {
      LinkTopAt(g, v, n, i, b, m, s);
    }
  }

  lemma LinkTableExtends(g: Geometry, v: Vol, t: nat, k: nat, b: nat)
    requires GeometryOk(g) && |v.d| == g.blocks
    requires TreeOk(g, v) && Fresh(g, v, b)
    requires t in v.own && IsTable(v.own[t].slot) && k < PTRS && Ptr(v.d, t, k) == 0
    ensures TreeOk(g, LinkTable(v, t, k, b)) && SameData(v, LinkTable(v, t, k, b))
  {
    var w := LinkTable(v, t, k, b);
    LinkTableOk(g, v, t, k, b);
    forall m, s | m in v.files && SlotOk(s) && !IsTable(s) ensures DataAt(w, m, s) == DataAt(v, m, s) {
      LinkTableAt(g, v, t, k, b, m, s);
      assert BlockOf(v, m, s) != t;
    }
  }

  /** A disk that keeps every owned block keeps every tree and every byte. */
  lemma OwnedBlocksFixData(g: Geometry, v: Vol, d: Disk)
    requires TreeOk(g, v) && |d| == |v.d|
    requires forall b :: b in v.own ==> d[b] == v.d[b]
    ensures TreeOk(g, v.(d := d)) && SameData(v, v.(d := d))
  {
    TablesFixAll(g, v, d);
  }

  // ---- writing one data block ----

  /** Rewriting the block behind a data slot changes that slot's data and nothing else. */
  lemma DataWrite(g: Geometry, v: Vol, n: nat, s: Slot, x: Block)
    requires TreeOk(g, v) && n in v.files && SlotOk(s) && !IsTable(s) && BlockOf(v, n, s) != 0
    ensures var w := v.(d := v.d[BlockOf(v, n, s) := x]);
      && TreeOk(g, w)
      && forall m, t :: m in v.files && SlotOk(t) && !IsTable(t) ==>
           DataAt(w, m, t) == if m == n && t == s then x else DataAt(v, m, t)
  {
    TablesFixAll(g, v, v.d[BlockOf(v, n, s) := x]);
  }

  /** The same, byte by byte: only the bytes of logical block `l` of file `n` change. */
  lemma BlockWrite(g: Geometry, v: Vol, n: nat, l: nat, x: Block)
    requires TreeOk(g, v) && n in v.files && l < MAX_BLOCKS && BlockOf(v, n, SlotOf(l)) != 0
    ensures var w := v.(d := v.d[BlockOf(v, n, SlotOf(l)) := x]);
      && TreeOk(g, w)
      && (forall m, t :: m in v.files && m != n && SlotOk(t) && !IsTable(t) ==> DataAt(w, m, t) == DataAt(v, m, t))
      && forall pos: nat :: pos < MAX_BYTES ==>
           ByteAt(w, n, pos) == if pos / BLOCK == l then x[pos % BLOCK] else ByteAt(v, n, pos)
  {
    var w := v.(d := v.d[BlockOf(v, n, SlotOf(l)) := x]);
    DataWrite(g, v, n, SlotOf(l), x);
    forall pos: nat | pos < MAX_BYTES
      ensures ByteAt(w, n, pos) == if pos / BLOCK == l then x[pos % BLOCK] else ByteAt(v, n, pos)
    {
      if SlotOf(pos / BLOCK) == SlotOf(l) { SlotOfInjective(pos / BLOCK, l); }
    }
  }

  // ---- a whole write ----

  /** File `n` now reads `data` at `off`; every other byte of every file is what it was. */
  ghost predicate Wrote(g: Geometry, v: Vol, w: Vol, n: nat, off: nat, data: seq<byte>)
    requires GeometryOk(g) && |v.d| == |w.d| == g.blocks
  {
    && InodesOk(v) && InodesOk(w) && n in v.files && n in w.files
    && SameInodesBut(v, w, n)
    && (forall m, s :: m in v.files && m != n && SlotOk(s) && !IsTable(s) ==> DataAt(w, m, s) == DataAt(v, m, s))
    && Laid(v, w, n, off, data)
  }

  /** The disk bookkeeping of a run of growing steps and data writes. */
  ghost predicate Kept(g: Geometry, v: Vol, w: Vol, n: nat)
    requires GeometryOk(g) && |v.d| == |w.d| == g.blocks
  {
    Grown(v, w) && JoinedOnly(v, w, n) && SameInodeArea(g, v.d, w.d) && SpaceKept(g, v, w)
  }

  /** What file `n` holds and what is free are, together, the same blocks; other trees hold what they held. */
  ghost predicate Conserved(g: Geometry, v: Vol, w: Vol, n: nat)
    requires GeometryOk(g) && |v.d| == |w.d| == g.blocks
  {
    && FreeBlocks(g, w.d) + Reach(w, n) == FreeBlocks(g, v.d) + Reach(v, n)
    && forall m :: m != n ==> Reach(w, m) == Reach(v, m)
  }

  /** Every block of the `len` bytes at `base` of file `n` is there. */
  ghost predicate Mapped(v: Vol, n: nat, base: nat, len: nat)
    requires n in v.files && |v.files[n].blocks| == 15
  {
    base + len <= MAX_BYTES && forall pos: nat :: base <= pos < base + len ==> BlockOf(v, n, SlotOf(pos / BLOCK)) != 0
  }

  /** A block that is there stays where it is as long as trees only grow. */
  lemma StillMapped(g: Geometry, v: Vol, w: Vol, n: nat, base: nat, len: nat, pos: nat)
    requires TreeOk(g, v) && TreeOk(g, w) && Grown(v, w) && n in v.files && n in w.files && Mapped(v, n, base, len) && base <= pos < base + len
    ensures pos / BLOCK < MAX_BLOCKS && BlockOf(w, n, SlotOf(pos / BLOCK)) == BlockOf(v, n, SlotOf(pos / BLOCK)) != 0
  {
    hide BlockOf, SlotOf, Owned, Exact;
    PlaceOf(g, v, n, SlotOf(pos / BLOCK));
    OwnerOf(g, w, BlockOf(v, n, SlotOf(pos / BLOCK)));
  }

  lemma KeptConserves(g: Geometry, v: Vol, w: Vol, x: Vol, n: nat, freeBlocks: nat)
    requires GeometryOk(g) && |v.d| == |w.d| == |x.d| == g.blocks && Kept(g, v, w, n)
    requires x.own == w.own && FreeBlocks(g, x.d) == FreeBlocks(g, w.d)
    requires SpaceOk(g, v, |FreeBlocks(g, v.d)|) && SpaceOk(g, x, freeBlocks)
    ensures Conserved(g, v, x, n)
  {
    hide FreeBlocks, SameInodeArea, IsMeta, Reach;
    forall m | m != n ensures Reach(x, m) == Reach(v, m) {
      OtherReach(v, x, n, m);
    }
    ReachConserved(FreeBlocks(g, v.d), FreeBlocks(g, x.d), v, x, n);
  }

  lemma ExtendsConserves(g: Geometry, v: Vol, w: Vol, x: Vol, n: nat, freeBlocks: nat)
    requires GeometryOk(g) && |v.d| == |w.d| == |x.d| == g.blocks && Extends(g, v, w, n)
    requires x.own == w.own && FreeBlocks(g, x.d) == FreeBlocks(g, w.d)
    requires SpaceOk(g, v, |FreeBlocks(g, v.d)|) && SpaceOk(g, x, freeBlocks)
    ensures Conserved(g, v, x, n)
  {
    hide FreeBlocks, SameInodeArea, SpaceOk, SpaceKept, Conserved, SameData, SameInodesBut;
    KeptConserves(g, v, w, x, n, freeBlocks);
  }

  /** A step that moved no block (`v` to `u`) changes nothing about what a later one conserves. */
  lemma SameConserved(g: Geometry, v: Vol, u: Vol, w: Vol, n: nat)
    requires GeometryOk(g) && |v.d| == |u.d| == |w.d| == g.blocks
    requires u.own == v.own && FreeBlocks(g, u.d) == FreeBlocks(g, v.d)
    requires Conserved(g, u, w, n) || (w.own == u.own && FreeBlocks(g, w.d) == FreeBlocks(g, u.d))
    ensures Conserved(g, v, w, n)
  {
  }

  lemma OtherReach(v: Vol, x: Vol, n: nat, m: nat)
    requires m != n && Grown(v, x) && JoinedOnly(v, x, n)
    ensures Reach(x, m) == Reach(v, m)
  {
  }

  lemma ReachConserved(free: set<nat>, left: set<nat>, v: Vol, x: Vol, n: nat)
    requires left + x.own.Keys == free + v.own.Keys && Grown(v, x) && JoinedOnly(v, x, n)
    requires (forall b :: b in v.own ==> b !in free) && (forall b :: b in x.own ==> b !in left)
    ensures left + Reach(x, n) == free + Reach(v, n)
  {
    forall b ensures b in left + Reach(x, n) <==> b in free + Reach(v, n) {
      assert b in left + x.own.Keys <==> b in free + v.own.Keys;
    }
  }

  lemma ExtendsBytes(g: Geometry, v: Vol, w: Vol, n: nat)
    requires GeometryOk(g) && |v.d| == |w.d| == g.blocks && Extends(g, v, w, n)
    ensures forall m, pos: nat :: m in v.files && pos < MAX_BYTES ==> ByteAt(w, m, pos) == ByteAt(v, m, pos)
  {
  }

  /** One turn of the write loop: grow the tree (`w` to `x`), then rewrite one block (`x` to `y`). */
  lemma WroteStep(g: Geometry, v: Vol, w: Vol, x: Vol, n: nat, off: nat, buf: seq<byte>, k: nat, take: nat, l: nat, o: nat, blk: Block)
    requires GeometryOk(g) && |v.d| == |w.d| == |x.d| == g.blocks
    requires k + take <= |buf| && Wrote(g, v, w, n, off, buf[..k])
    requires TreeOk(g, x) && Extends(g, w, x, n)
    requires l == (off + k) / BLOCK < MAX_BLOCKS && o == (off + k) % BLOCK && 0 < take <= BLOCK - o
    requires BlockOf(x, n, SlotOf(l)) != 0
    requires blk == Blit(DataAt(x, n, SlotOf(l)), o, buf[k..k + take])
    ensures var y := x.(d := x.d[BlockOf(x, n, SlotOf(l)) := blk]);
      TreeOk(g, y) && Wrote(g, v, y, n, off, buf[..k + take])
  {
    hide Owned, Exact, SlotOf, DataAt, BlockOf, At, IsMeta, SpaceKept, SameInodeArea, Grown;
    PlaceOf(g, x, n, SlotOf(l));
    var y := x.(d := x.d[BlockOf(x, n, SlotOf(l)) := blk]);
    BlockWrite(g, x, n, l, blk);
    ExtendsBytes(g, w, x, n);
    forall pos: nat | pos < MAX_BYTES
      ensures ByteAt(y, n, pos) == if off <= pos < off + k + take then buf[..k + take][pos - off] else ByteAt(v, n, pos)
    {
      ChunkWindow(off + k, take, pos);
      assert ByteAt(x, n, pos) == ByteAt(w, n, pos);
      assert pos / BLOCK == l ==> ByteAt(x, n, pos) == DataAt(x, n, SlotOf(l))[pos % BLOCK];
    }
  }

  lemma ChunkWindow(start: nat, take: nat, pos: nat)
    requires 0 < take <= BLOCK - start % BLOCK
    ensures start <= pos < start + take <==>
      pos / BLOCK == start / BLOCK && start % BLOCK <= pos % BLOCK < start % BLOCK + take
    ensures pos / BLOCK == start / BLOCK ==> pos % BLOCK - start % BLOCK == pos - start
  {
  }

  /** `c` with `data` laid over it at `off`, zero-filled up to `off`. */
  function Overlay(c: seq<byte>, off: nat, data: seq<byte>): (r: seq<byte>)
    ensures |r| == if off + |data| > |c| then off + |data| else |c|
  {
    seq<byte>(if off + |data| > |c| then off + |data| else |c|,
        i requires i >= 0 => if off <= i < off + |data| then data[i - off] else if i < |c| then c[i] else 0)
  }

  /** Bytes past the end of a file are zero, so growing it exposes zeros. */
  ghost predicate TailZero(v: Vol, n: nat)
    requires n in v.files && |v.files[n].blocks| == 15
  {
    forall pos: nat :: v.files[n].size <= pos < MAX_BYTES ==> ByteAt(v, n, pos) == 0
  }

  /** File `n` reads `data` at `off` and is otherwise, byte for byte, what it was. */
  ghost predicate Laid(v: Vol, w: Vol, n: nat, off: nat, data: seq<byte>)
    requires n in v.files && n in w.files && |v.files[n].blocks| == |w.files[n].blocks| == 15
  {
    forall pos: nat :: pos < MAX_BYTES ==>
      ByteAt(w, n, pos) == if off <= pos < off + |data| then data[pos - off] else ByteAt(v, n, pos)
  }

  /** What lies between the end of file `n` and `off` is zero. */
  ghost predicate GapZero(v: Vol, n: nat, off: nat)
    requires n in v.files && |v.files[n].blocks| == 15
  {
    forall pos: nat :: v.files[n].size <= pos < off && pos < MAX_BYTES ==> ByteAt(v, n, pos) == 0
  }

  /** The size after a write of `k` bytes at `off`, of which the bytes land at `base`. */
  function SizeAfter(size: nat, off: nat, base: nat, k: nat): nat {
    if off + k > size then base + k else size
  }

  /** A write whose end, taken modulo the addressable range, falls inside the file cuts the file there. */
  predicate Cuts(size: nat, off: nat, base: nat, k: nat) {
    off + k > size > base + k
  }

  /**
   A file with bytes laid over it reads as the overlay on its old content, cut at its new size,
   exactly when there was nothing but zeros in the gap that the write jumped over. Zeros past
   the end stay zeros unless the file was cut.
   */
  lemma WroteContent(v: Vol, w: Vol, n: nat, off: nat, base: nat, data: seq<byte>)
    requires n in v.files && n in w.files && InodeOk(v.files[n]) && InodeOk(w.files[n])
    requires Laid(v, w, n, base, data) && data != [] && base <= off
    requires v.files[n].size <= MAX_BYTES && base + |data| <= MAX_BYTES
    requires w.files[n].size == SizeAfter(v.files[n].size, off, base, |data|)
    ensures w.files[n].size <= |Overlay(Content(v, n), base, data)|
    ensures Content(w, n) == Overlay(Content(v, n), base, data)[..w.files[n].size] <==> GapZero(v, n, base)
    ensures TailZero(v, n) ==> GapZero(v, n, base)
    ensures TailZero(v, n) && !Cuts(v.files[n].size, off, base, |data|) ==> TailZero(w, n)
  {
    hide ByteAt;
    var was, now, size := Content(v, n), Content(w, n), w.files[n].size;
    var over := Overlay(was, base, data);
    if GapZero(v, n, base) {
      assert now == over[..size];
    }
    if now == over[..size] {
      forall pos: nat | v.files[n].size <= pos < base && pos < MAX_BYTES ensures ByteAt(v, n, pos) == 0 {
        assert now[pos] == over[..size][pos] == 0;
      }
    }
  }

  // ---- writing an inode record back ----

  /** Storing inode `n` (new size, new times, same pointers) disturbs no tree and no byte. */
  lemma StoreInode(g: Geometry, v: Vol, n: nat, ino: Inode)
    requires GeometryOk(g) && |v.d| == g.blocks && TreeOk(g, v)
    requires n in v.files && 1 <= n <= g.inodes && InodeOk(ino) && ino.blocks == v.files[n].blocks
    ensures var w := Vol(PutInode(g, v.d, n, ino), v.files[n := ino], v.own);
      && TreeOk(g, w)
      && (forall m, s :: m in v.files && SlotOk(s) && !IsTable(s) ==> DataAt(w, m, s) == DataAt(v, m, s))
      && FreeBlocks(g, w.d) == FreeBlocks(g, v.d) && FreeInodes(g, w.d) == FreeInodes(g, v.d)
      && w.d[1] == v.d[1]
  {
    hide EncodeInode;
    PutInodeAt(g, v.d, n, ino);
    var x := v.(d := PutInode(g, v.d, n, ino));
    OwnedBlocksFixData(g, v, x.d);
    var w := Vol(x.d, v.files[n := ino], v.own);
    assert forall m, s :: m in v.files && SlotOk(s) ==> BlockOf(w, m, s) == BlockOf(x, m, s);
  }

  lemma SameInodeAreaSame(g: Geometry, d: Disk, e: Disk)
    requires GeometryOk(g) && |d| == |e| == g.blocks && SameInodeArea(g, d, e)
    ensures FreeInodes(g, d) == FreeInodes(g, e)
    ensures forall m :: 1 <= m <= g.inodes ==> InodeAt(g, e, m) == InodeAt(g, d, m)
  {
    hide DecodeInode;
    assert forall m :: 1 <= m <= g.inodes ==> InTable(g, RecordBlock(g, m));
  }

  // ---- abandoning an inode under modification ----

  /** Owners that the stored version of the inodes still accounts for. */
  ghost function Surviving(v: Vol, files: map<nat, Inode>): map<nat, Place>
    requires InodesOk(v.(files := files)) && (forall b :: b in v.own ==> v.own[b].ino in files && SlotOk(v.own[b].slot))
  {
    map b | b in v.own && BlockOf(v.(files := files), v.own[b].ino, v.own[b].slot) == b :: v.own[b]
  }

  /** Dropping the in-memory inode of a failed write leaves a sound volume behind. */
  lemma Abandon(g: Geometry, v: Vol, w: Vol, n: nat)
    requires GeometryOk(g) && |v.d| == |w.d| == g.blocks
    requires TreeOk(g, v) && TreeOk(g, w) && n in v.files
    requires SameInodesBut(v, w, n) && Grown(v, w)
    ensures InodesOk(w.(files := v.files)) && (forall b :: b in w.own ==> w.own[b].ino in v.files && SlotOk(w.own[b].slot))
    ensures TreeOk(g, Vol(w.d, v.files, Surviving(w, v.files)))
    ensures forall m, s :: m in v.files && m != n && SlotOk(s) && !IsTable(s) ==>
      DataAt(Vol(w.d, v.files, Surviving(w, v.files)), m, s) == DataAt(w, m, s)
  {
    var u := Vol(w.d, v.files, Surviving(w, v.files));
    forall m, s | m in v.files && SlotOk(s)
      ensures BlockOf(u, m, s) == 0 || BlockOf(u, m, s) == BlockOf(w, m, s)
    {
      AbandonAt(g, v, w, n, m, s);
    }
  }

  lemma AbandonTop(g: Geometry, v: Vol, w: Vol, n: nat, i: nat)
    requires TreeOk(g, v) && TreeOk(g, w) && n in v.files
    requires SameInodesBut(v, w, n) && Grown(v, w) && i < 14
    ensures v.files[n].blocks[i] == 0 || v.files[n].blocks[i] == w.files[n].blocks[i]
  {
    assert BlockOf(v, n, TopSlot(i)) == v.files[n].blocks[i];
    assert BlockOf(w, n, TopSlot(i)) == w.files[n].blocks[i];
  }

  lemma AbandonAt(g: Geometry, v: Vol, w: Vol, n: nat, m: nat, s: Slot)
    requires TreeOk(g, v) && TreeOk(g, w) && n in v.files && m in v.files && SlotOk(s)
    requires SameInodesBut(v, w, n) && Grown(v, w)
    ensures At(w.d, v.files[m].blocks, s) == 0 || At(w.d, v.files[m].blocks, s) == BlockOf(w, m, s)
    ensures m != n ==> At(w.d, v.files[m].blocks, s) == BlockOf(w, m, s)
  {
    AbandonTop(g, v, w, n, 12);
    AbandonTop(g, v, w, n, 13);
    if s.Direct? { AbandonTop(g, v, w, n, s.i); }
  }

  lemma WroteNothing(g: Geometry, v: Vol, n: nat, off: nat)
    requires GeometryOk(g) && |v.d| == g.blocks && InodesOk(v) && n in v.files
    ensures Wrote(g, v, v, n, off, [])
  {
  }

  lemma KeptRefl(g: Geometry, v: Vol, n: nat)
    requires GeometryOk(g) && |v.d| == g.blocks
    ensures Kept(g, v, v, n)
  {
  }

  /** Growing a tree (`w` to `x`) and then writing an owned data block keeps the bookkeeping. */
  lemma KeptStep(g: Geometry, v: Vol, w: Vol, x: Vol, n: nat, b: nat, blk: Block)
    requires GeometryOk(g) && |v.d| == |w.d| == |x.d| == g.blocks
    requires Kept(g, v, w, n) && Extends(g, w, x, n) && TreeOk(g, x) && b in x.own
    ensures 0 < b < g.blocks && Kept(g, v, x.(d := x.d[b := blk]), n)
    ensures x.d[b := blk][1] == x.d[1] && x.d[b := blk][g.inodeBitmap] == x.d[g.inodeBitmap]
    ensures x.d[b := blk][g.blockBitmap] == x.d[g.blockBitmap]
  {
    hide Owned, Exact, DataAt, SameInodesBut;
    OwnerOf(g, x, b);
  }

  lemma KeptExtends(g: Geometry, v: Vol, w: Vol, x: Vol, n: nat)
    requires GeometryOk(g) && |v.d| == |w.d| == |x.d| == g.blocks
    requires Kept(g, v, w, n) && Extends(g, w, x, n)
    ensures Kept(g, v, x, n)
  {
  }

  lemma WroteExtends(g: Geometry, v: Vol, w: Vol, x: Vol, n: nat, off: nat, data: seq<byte>)
    requires GeometryOk(g) && |v.d| == |w.d| == |x.d| == g.blocks
    requires Wrote(g, v, w, n, off, data) && Extends(g, w, x, n)
    ensures SameInodesBut(v, x, n)
    ensures forall m, s :: m in v.files && m != n && SlotOk(s) && !IsTable(s) ==> DataAt(x, m, s) == DataAt(v, m, s)
  {
    hide SlotOf, Laid, SameInodeArea, SpaceKept, Grown;
  }

  /** What a finished loop says about the inode and the other files. */
  lemma WroteSize(g: Geometry, v: Vol, w: Vol, n: nat, off: nat, data: seq<byte>)
    requires GeometryOk(g) && |v.d| == |w.d| == g.blocks && Wrote(g, v, w, n, off, data)
    ensures SameInodesBut(v, w, n) && w.files[n].size == v.files[n].size && w.files[n].mode == v.files[n].mode
    ensures forall m, s :: m in v.files && m != n && SlotOk(s) && !IsTable(s) ==> DataAt(w, m, s) == DataAt(v, m, s)
  {
    hide Laid, DataAt;
  }

  lemma DataOfBlock(v: Vol, n: nat, s: Slot)
    requires n in v.files && |v.files[n].blocks| == 15 && SlotOk(s) && 0 < BlockOf(v, n, s) < |v.d|
    ensures DataAt(v, n, s) == v.d[BlockOf(v, n, s)]
  {
  }

  lemma SameBitmaps(g: Geometry, v: Vol, w: Vol, freeBlocks: nat)
    requires GeometryOk(g) && |v.d| == |w.d| == g.blocks && SpaceOk(g, v, freeBlocks)
    requires w.own == v.own && w.d[g.blockBitmap] == v.d[g.blockBitmap] && w.d[g.inodeBitmap] == v.d[g.inodeBitmap]
    ensures SpaceOk(g, w, freeBlocks) && FreeInodes(g, w.d) == FreeInodes(g, v.d) && FreeBlocks(g, w.d) == FreeBlocks(g, v.d)
  {
    hide FreeNumbers, IsMeta;
  }

  lemma SameDataBytes(v: Vol, w: Vol, n: nat)
    requires n in v.files && n in w.files && |v.files[n].blocks| == |w.files[n].blocks| == 15
    requires forall s :: SlotOk(s) && !IsTable(s) ==> DataAt(w, n, s) == DataAt(v, n, s)
    ensures forall pos: nat :: pos < MAX_BYTES ==> ByteAt(w, n, pos) == ByteAt(v, n, pos)
  {
    hide SlotOf, DataAt;
  }

  /** Giving up after growing steps alone changes nothing that can be read. */
  lemma AbandonExtends(g: Geometry, v: Vol, w: Vol, n: nat, freeBlocks: nat)
    requires GeometryOk(g) && |v.d| == |w.d| == g.blocks
    requires TreeOk(g, v) && TreeOk(g, w) && n in v.files && SpaceOk(g, w, freeBlocks)
    requires Extends(g, v, w, n)
    ensures InodesOk(w.(files := v.files)) && (forall b :: b in w.own ==> w.own[b].ino in v.files && SlotOk(w.own[b].slot))
    ensures var u := Vol(w.d, v.files, Surviving(w, v.files));
      TreeOk(g, u) && SameData(v, u) && SpaceOk(g, u, freeBlocks)
  {
    hide Owned, Exact, At, IsMeta, FreeBlocks, SpaceKept, SameInodeArea, DataAt, BlockOf;
    Abandon(g, v, w, n);
    var u := Vol(w.d, v.files, Surviving(w, v.files));
    forall m, s | m in v.files && SlotOk(s) && !IsTable(s) ensures DataAt(u, m, s) == DataAt(v, m, s) {
      if m == n {
        AbandonDataAt(g, v, w, n, s, Surviving(w, v.files));
      }
    }
  }

  lemma AbandonDataAt(g: Geometry, v: Vol, w: Vol, n: nat, s: Slot, own: map<nat, Place>)
    requires TreeOk(g, v) && TreeOk(g, w) && |v.d| == |w.d| && n in v.files && n in w.files && SlotOk(s) && !IsTable(s)
    requires SameInodesBut(v, w, n) && Grown(v, w) && DataAt(w, n, s) == DataAt(v, n, s)
    ensures DataAt(Vol(w.d, v.files, own), n, s) == DataAt(v, n, s)
  {
    AbandonAt(g, v, w, n, n, s);
    AbandonTop(g, v, w, n, 12);
    AbandonTop(g, v, w, n, 13);
    assert BlockOf(v, n, s) != 0 ==> BlockOf(w, n, s) == BlockOf(v, n, s);
  }

  lemma WroteThen(g: Geometry, v: Vol, w: Vol, x: Vol, n: nat, off: nat, data: seq<byte>)
    requires GeometryOk(g) && |v.d| == |w.d| == g.blocks && Wrote(g, v, w, n, off, data)
    requires n in x.files && |x.files[n].blocks| == 15
    requires forall s :: SlotOk(s) && !IsTable(s) ==> DataAt(x, n, s) == DataAt(w, n, s)
    ensures Laid(v, x, n, off, data)
  {
    hide ByteAt, DataAt, SameInodesBut;
    SameDataBytes(w, x, n);
  }

  lemma ExtendsInode(g: Geometry, v: Vol, w: Vol, n: nat)
    requires GeometryOk(g) && |v.d| == |w.d| == g.blocks && Extends(g, v, w, n) && n in v.files
    ensures n in w.files && w.files[n].mode == v.files[n].mode && w.files[n].size == v.files[n].size
  {
  }
}
