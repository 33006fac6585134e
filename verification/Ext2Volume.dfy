/**
 What a sound volume is between operations, and how the driver's steps keep it sound.
 */
module Ext2Volume {
  import opened Bytes
  import opened Ext2Layout
  import opened Ext2Tree
  import opened Ext2Data
  import opened Ext2Dir
  import opened Ext2Names
  import opened Ext2Links

  /** Live inodes are allocated, within the addressable size, and stored as the driver holds them. */
  ghost predicate FilesOk(g: Geometry, v: Vol)
    requires GeometryOk(g) && |v.d| == g.blocks
  {
    forall n :: n in v.files ==>
      && 1 <= n <= g.inodes && n !in FreeInodes(g, v.d)
      && v.files[n].size <= MAX_BYTES
      && InodeAt(g, v.d, n) == v.files[n]
  }

  /** Past its end a file holds zeros, unless a failed write left something there. */
  ghost predicate TailsOk(v: Vol, torn: set<nat>)
    requires InodesOk(v)
  {
    forall n :: n in v.files && (n !in torn || IsDirectory(v.files[n])) ==> TailZero(v, n)
  }

  ghost predicate VolOk(g: Geometry, v: Vol, home: map<nat, nat>, torn: set<nat>)
    requires GeometryOk(g) && |v.d| == g.blocks && InodesOk(v)
  {
    FilesOk(g, v) && TailsOk(v, torn) && NamesOk(v, home)
  }

  lemma RangeExtend(v: Vol, n: nat, lo: nat, pos: nat, take: nat, piece: seq<byte>)
    requires n in v.files && |v.files[n].blocks| == 15 && lo <= pos && pos + take <= MAX_BYTES
    requires 0 < take <= BLOCK - pos % BLOCK
    requires piece == DataAt(v, n, SlotOf(pos / BLOCK))[pos % BLOCK..pos % BLOCK + take]
    ensures Range(v, n, lo, pos) + piece == Range(v, n, lo, pos + take)
  {
    hide SlotOf, DataAt;
    forall i | 0 <= i < take ensures piece[i] == ByteAt(v, n, pos + i) {
      assert (pos + i) / BLOCK == pos / BLOCK && (pos + i) % BLOCK == pos % BLOCK + i;
    }
  }

  /** Every file but `n` has the same inode and the same data. */
  ghost predicate SameBut(v: Vol, w: Vol, n: nat)
    requires InodesOk(v) && InodesOk(w)
  {
    && v.files.Keys == w.files.Keys
    && (forall m :: m in v.files && m != n ==> w.files[m] == v.files[m])
    && (forall m, s :: m in v.files && m != n && SlotOk(s) && !IsTable(s) ==> DataAt(w, m, s) == DataAt(v, m, s))
  }

  /** What no other file can see: its bytes are what they were. */
  lemma SameButContent(v: Vol, w: Vol, n: nat, m: nat)
    requires InodesOk(v) && InodesOk(w) && SameBut(v, w, n) && m in v.files && m != n && v.files[m].size <= MAX_BYTES
    ensures Content(w, m) == Content(v, m)
    ensures TailZero(v, m) ==> TailZero(w, m)
  {
    SameContent(v, w, m);
  }

  /** Soundness after an operation on one file is soundness of that file. */
  lemma VolOkBut(g: Geometry, v: Vol, w: Vol, home: map<nat, nat>, torn: set<nat>, torn': set<nat>, n: nat)
    requires GeometryOk(g) && |v.d| == |w.d| == g.blocks && InodesOk(v) && InodesOk(w)
    requires VolOk(g, v, home, torn) && SameBut(v, w, n) && n in v.files
    requires w.files[n].mode == v.files[n].mode && w.files[n].size <= MAX_BYTES
    requires FreeInodes(g, w.d) == FreeInodes(g, v.d)
    requires forall m :: m in w.files ==> InodeAt(g, w.d, m) == w.files[m]
    requires torn <= torn' + {n}
    requires n !in torn' || IsDirectory(w.files[n]) ==> TailZero(w, n)
    requires IsDirectory(w.files[n]) ==> DirOk(w, home, n)
    ensures VolOk(g, w, home, torn')
  {
    hide InodeAt, FreeInodes, TailZero, Content, Live, Entries, DirTiled;
    forall m | m in w.files && m != n ensures
      && Content(w, m) == Content(v, m)
      && (TailZero(v, m) ==> TailZero(w, m))
    {
      SameButContent(v, w, n, m);
    }
    forall m | m in w.files && IsDirectory(w.files[m]) ensures DirOk(w, home, m) {
      if m != n {
        assert DirOk(v, home, m);
        ListSameModes(v.files, w.files, home, m, Live(Entries(Content(v, m))));
      }
    }
  }

  /** After a failed write the stored inode still roots a sound tree; only its own bytes are in doubt. */
  lemma AbandonOk(g: Geometry, v: Vol, w: Vol, home: map<nat, nat>, torn: set<nat>, n: nat, freeBlocks: nat)
    requires GeometryOk(g) && |v.d| == |w.d| == g.blocks
    requires TreeOk(g, v) && TreeOk(g, w) && SpaceOk(g, w, freeBlocks) && n in v.files && !IsDirectory(v.files[n])
    requires VolOk(g, v, home, torn)
    requires SameInodesBut(v, w, n) && Grown(v, w) && SameInodeArea(g, v.d, w.d)
    requires forall m, s :: m in v.files && m != n && SlotOk(s) && !IsTable(s) ==> DataAt(w, m, s) == DataAt(v, m, s)
    ensures InodesOk(w.(files := v.files)) && (forall b :: b in w.own ==> w.own[b].ino in v.files && SlotOk(w.own[b].slot))
    ensures var u := Vol(w.d, v.files, Surviving(w, v.files));
      TreeOk(g, u) && SpaceOk(g, u, freeBlocks) && SameBut(v, u, n) && VolOk(g, u, home, torn + {n})
  {
    hide Owned, Exact, InodeAt, FreeInodes, FreeBlocks, TailZero, DirOk, At, IsMeta;
    Abandon(g, v, w, n);
    var u := Vol(w.d, v.files, Surviving(w, v.files));
    SameInodeAreaSame(g, v.d, w.d);
    VolOkBut(g, v, u, home, torn, torn + {n}, n);
  }

  /** A finished write: the bytes are laid over (`v` to `w`), the inode is stored (`w` to `x`). */
  lemma CommitOk(g: Geometry, v: Vol, w: Vol, x: Vol, home: map<nat, nat>, torn: set<nat>, torn': set<nat>, n: nat)
    requires GeometryOk(g) && |v.d| == |w.d| == |x.d| == g.blocks && InodesOk(v) && InodesOk(w) && InodesOk(x)
    requires VolOk(g, v, home, torn) && n in v.files && !IsDirectory(v.files[n])
    requires SameInodesBut(v, w, n) && SameInodeArea(g, v.d, w.d)
    requires forall m, s :: m in v.files && m != n && SlotOk(s) && !IsTable(s) ==> DataAt(w, m, s) == DataAt(v, m, s)
    requires n in x.files && x.files == w.files[n := x.files[n]] && x.d == PutInode(g, w.d, n, x.files[n])
    requires forall m, s :: m in w.files && SlotOk(s) && !IsTable(s) ==> DataAt(x, m, s) == DataAt(w, m, s)
    requires FreeInodes(g, x.d) == FreeInodes(g, w.d)
    requires x.files[n].mode == v.files[n].mode && x.files[n].size <= MAX_BYTES
    requires torn <= torn' + {n} && (n !in torn' ==> TailZero(x, n))
    ensures SameBut(v, x, n) && VolOk(g, x, home, torn')
  {
    hide InodeAt, FreeInodes, TailZero, DirOk, DataAt, PutInode;
    SameInodeAreaSame(g, v.d, w.d);
    PutInodeAt(g, w.d, n, x.files[n]);
    VolOkBut(g, v, x, home, torn, torn', n);
  }

  lemma TailOfUntorn(g: Geometry, v: Vol, home: map<nat, nat>, torn: set<nat>, n: nat)
    requires GeometryOk(g) && |v.d| == g.blocks && InodesOk(v) && VolOk(g, v, home, torn) && n in v.files
    ensures n !in torn ==> TailZero(v, n)
    ensures v.files[n].size <= MAX_BYTES && 1 <= n <= g.inodes
  {
  }

  /** The records of directory `n` have gained one for `name -> target`. */
  ghost predicate RecordAdded(v: Vol, w: Vol, n: nat, name: Name, target: nat)
    requires n in v.files && |v.files[n].blocks| == 15 && v.files[n].size <= MAX_BYTES && DirTiled(Content(v, n))
    requires n in w.files && |w.files[n].blocks| == 15
  {
    && w.files[n].size <= MAX_BYTES
    && DirTiled(Content(w, n))
    && Entries(Content(w, n)) == AddRecord(Entries(Content(v, n)), v.files[n].size, name, target)
    && TailZero(w, n)
  }

  /** The inode area differs at most in the record of `n`, which is stored. */
  ghost predicate StoredBut(g: Geometry, v: Vol, w: Vol, n: nat)
    requires GeometryOk(g) && |v.d| == |w.d| == g.blocks && n in w.files && 1 <= n <= g.inodes
  {
    && FreeInodes(g, w.d) == FreeInodes(g, v.d)
    && InodeAt(g, w.d, n) == w.files[n]
    && (forall m :: 1 <= m <= g.inodes && m != n ==> InodeAt(g, w.d, m) == InodeAt(g, v.d, m))
  }

  /** Directory `n` has gained the record for `name -> target`; nothing else changed. */
  ghost predicate Added(g: Geometry, v: Vol, w: Vol, n: nat, name: Name, target: nat)
    requires GeometryOk(g) && |v.d| == |w.d| == g.blocks && 1 <= n <= g.inodes
    requires InodesOk(v) && InodesOk(w) && n in v.files && v.files[n].size <= MAX_BYTES && DirTiled(Content(v, n))
  {
    && SameBut(v, w, n)
    && w.files[n].mode == v.files[n].mode
    && RecordAdded(v, w, n, name, target)
    && StoredBut(g, v, w, n)
  }

  lemma NotMetaWrite(g: Geometry, d: Disk, b: nat, x: Block)
    requires GeometryOk(g) && |d| == g.blocks && b < g.blocks && !IsMeta(g, b)
    ensures SameInodeArea(g, d, d[b := x])
    ensures d[b := x][1] == d[1] && d[b := x][g.blockBitmap] == d[g.blockBitmap] && d[b := x][g.inodeBitmap] == d[g.inodeBitmap]
  {
  }

  /** Inserting into the room of record `k`, the first that fits. */
  lemma AddedInPlace(g: Geometry, v: Vol, n: nat, c: seq<byte>, k: nat, name: Name, target: nat)
    requires GeometryOk(g) && |v.d| == g.blocks && TreeOk(g, v) && n in v.files && v.files[n].size <= MAX_BYTES
    requires c == Content(v, n) && DirTiled(c) && TailZero(v, n) && 1 <= n <= g.inodes && InodeAt(g, v.d, n) == v.files[n]
    requires 0 < target < 0x1_0000_0000 && |name| <= 255
    requires k == FirstFit(Entries(c), Span(name)) < |Entries(c)|
    ensures var r := Entries(c)[k]; var b := r.off / BLOCK; var p := r.off % BLOCK;
      && b < MAX_BLOCKS && 8 <= r.len && p + r.len <= BLOCK && BlockOf(v, n, SlotOf(b)) in v.own && 0 < BlockOf(v, n, SlotOf(b)) < |v.d|
      && !IsMeta(g, BlockOf(v, n, SlotOf(b)))
      && var w := v.(d := v.d[BlockOf(v, n, SlotOf(b)) := SplitBytes(v.d[BlockOf(v, n, SlotOf(b))], p, r, name, target)]);
        TreeOk(g, w) && Added(g, v, w, n, name, target)
  {
    hide Tiles, Recs, Chunk, RecOk, RecAt, Owned, Exact, SlotOf, DataAt, BlockOf, Entries, Content, TailZero, InodeAt, FreeInodes,
         SplitBytes, Split, Span, FirstFit, IsMeta;
    var es := Entries(c);
    var r := es[k];
    var b, p := r.off / BLOCK, r.off % BLOCK;
    var i := RecordPlace(c, k);
    SpanBounds(Chunk(c, b), p, BLOCK * b);
    ChunkIsData(v, n, b);
    TiledIsMapped(v, n, b);
    PlaceOf(g, v, n, SlotOf(b));
    DataOfBlock(v, n, SlotOf(b));
    var was := v.d[BlockOf(v, n, SlotOf(b))];
    SplitBytesLocal(was, p, r, name, target);
    SplitBytesRecs(was, p, name, target, BLOCK * b);
    var x := SplitBytes(was, p, r, name, target);
    DirEdit(g, v, n, c, k, b, p, p + r.len, x, Split(r, name, target));
    NotMetaWrite(g, v.d, BlockOf(v, n, SlotOf(b)), x);
    SameInodeAreaSame(g, v.d, v.d[BlockOf(v, n, SlotOf(b)) := x]);
  }

  /**
   Inserting into a fresh block: the tree grows (`v` to `w`), the inode is stored one block
   larger (`w` to `x`), the block is written (`x` to `y`).
   */
  lemma AddedBlock(g: Geometry, v: Vol, w: Vol, x: Vol, n: nat, name: Name, target: nat)
    requires GeometryOk(g) && |v.d| == |w.d| == |x.d| == g.blocks && TreeOk(g, v) && TreeOk(g, w) && TreeOk(g, x)
    requires n in v.files && v.files[n].size + BLOCK <= MAX_BYTES && 1 <= n <= g.inodes
    requires DirTiled(Content(v, n)) && TailZero(v, n)
    requires 0 < target < 0x1_0000_0000 && |name| <= 255
    requires FirstFit(Entries(Content(v, n)), Span(name)) == |Entries(Content(v, n))|
    requires Extends(g, v, w, n) && n in x.files
    requires x.files == w.files[n := w.files[n].(size := w.files[n].size + BLOCK)] && x.d == PutInode(g, w.d, n, x.files[n])
    requires forall m, s :: m in w.files && SlotOk(s) && !IsTable(s) ==> DataAt(x, m, s) == DataAt(w, m, s)
    requires FreeInodes(g, x.d) == FreeInodes(g, w.d)
    requires BlockOf(x, n, SlotOf(v.files[n].size / BLOCK)) != 0
    ensures var b := BlockOf(x, n, SlotOf(v.files[n].size / BLOCK));
      && b in x.own && b < |x.d| && !IsMeta(g, b)
      && var y := x.(d := x.d[b := WriteEntry(ZeroBlock(), 0, target, name, BLOCK)]);
        TreeOk(g, y) && Added(g, v, y, n, name, target)
  {
    hide Tiles, Recs, Chunk, Owned, Exact, SlotOf, DataAt, BlockOf, Entries, TailZero, InodeAt, FreeInodes,
         Span, FirstFit, IsMeta, PutInode, WriteEntry, SpaceKept, Grown, ByteAt;
    var l := v.files[n].size / BLOCK;
    var b := BlockOf(x, n, SlotOf(l));
    var blk := WriteEntry(ZeroBlock(), 0, target, name, BLOCK);
    PlaceOf(g, x, n, SlotOf(l));
    BlockWrite(g, x, n, l, blk);
    var y := x.(d := x.d[b := blk]);
    ExtendsBytes(g, v, w, n);
    SameDataBytes(w, x, n);
    assert RecordAdded(v, y, n, name, target) by {
      GrownContent(v, y, n, blk);
      DirExtended(Content(v, n), Content(y, n), name, target);
    }
    AddedStored(g, v, w, x, n, b, blk);
    GrownSame(g, v, w, x, y, n);
  }

  lemma AddedStored(g: Geometry, v: Vol, w: Vol, x: Vol, n: nat, b: nat, blk: Block)
    requires GeometryOk(g) && |v.d| == |w.d| == |x.d| == g.blocks && 1 <= n <= g.inodes
    requires SameInodeArea(g, v.d, w.d) && n in x.files && InodeOk(x.files[n]) && x.d == PutInode(g, w.d, n, x.files[n])
    requires FreeInodes(g, x.d) == FreeInodes(g, w.d) && b < g.blocks && !IsMeta(g, b)
    ensures StoredBut(g, v, x.(d := x.d[b := blk]), n)
  {
    hide InodeAt, FreeInodes, IsMeta, PutInode, SameInodeArea;
    SameInodeAreaSame(g, v.d, w.d);
    PutInodeAt(g, w.d, n, x.files[n]);
    NotMetaWrite(g, x.d, b, blk);
    SameInodeAreaSame(g, x.d, x.d[b := blk]);
  }

  lemma GrownSame(g: Geometry, v: Vol, w: Vol, x: Vol, y: Vol, n: nat)
    requires GeometryOk(g) && |v.d| == |w.d| == g.blocks && Extends(g, v, w, n) && n in w.files
    requires InodesOk(x) && n in x.files && x.files == w.files[n := x.files[n]] && InodesOk(y) && y.files == x.files
    requires forall m, s :: m in w.files && SlotOk(s) && !IsTable(s) ==> DataAt(x, m, s) == DataAt(w, m, s)
    requires forall m, s :: m in x.files && m != n && SlotOk(s) && !IsTable(s) ==> DataAt(y, m, s) == DataAt(x, m, s)
    ensures SameBut(v, y, n)
  {
    hide DataAt, Grown, JoinedOnly, SameInodeArea, SpaceKept;
  }

  lemma GrownContent(v: Vol, y: Vol, n: nat, blk: Block)
    requires n in v.files && n in y.files && |v.files[n].blocks| == |y.files[n].blocks| == 15
    requires v.files[n].size % BLOCK == 0 && y.files[n].size == v.files[n].size + BLOCK <= MAX_BYTES
    requires forall pos: nat :: pos < MAX_BYTES ==>
      ByteAt(y, n, pos) == if pos / BLOCK == v.files[n].size / BLOCK then blk[pos % BLOCK] else ByteAt(v, n, pos)
    ensures Content(y, n)[..v.files[n].size] == Content(v, n)
    ensures Content(y, n)[v.files[n].size..] == blk
    ensures TailZero(v, n) ==> TailZero(y, n)
  {
    hide ByteAt;
  }
}
