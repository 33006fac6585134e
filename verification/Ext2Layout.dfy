/**
 On-disk layout of the ext2 volume: 1 KiB blocks, one block group, 128-byte inode
 records, and one-block usage bitmaps.
 */
module Ext2Layout {
  import opened Bytes

  const BLOCK: nat := 1024
  const INODE_SIZE: nat := 128
  /** Bits in a one-block bitmap. */
  const BITS: nat := 8192

  type Block = b: seq<byte> | |b| == 1024 witness seq(1024, i => 0)
  type Disk = seq<Block>

  function ZeroBlock(): (b: Block)
    ensures forall i :: 0 <= i < BLOCK ==> b[i] == 0
  {
    seq(1024, i => 0)
  }

  datatype Geometry = Geometry(
    blocks: nat,
    inodes: nat,
    blockBitmap: nat,
    inodeBitmap: nat,
    inodeTable: nat)

  /** Blocks of the inode table. */
  function TableBlocks(g: Geometry): nat {
    (g.inodes + 7) / 8
  }

  predicate InTable(g: Geometry, b: nat) {
    g.inodeTable <= b < g.inodeTable + TableBlocks(g)
  }

  /** Superblock, group descriptor, the two bitmaps and the inode table. */
  predicate IsMeta(g: Geometry, b: nat) {
    b == 1 || b == 2 || b == g.blockBitmap || b == g.inodeBitmap || InTable(g, b)
  }

  /** What `mount` accepts (single group, bitmaps of one block), with the metadata areas disjoint. */
  predicate GeometryOk(g: Geometry) {
    && 3 <= g.blocks <= BITS + 1
    && 1 <= g.inodes <= BITS
    && 3 <= g.blockBitmap < g.blocks
    && 3 <= g.inodeBitmap < g.blocks
    && g.blockBitmap != g.inodeBitmap
    && 3 <= g.inodeTable && g.inodeTable + TableBlocks(g) <= g.blocks
    && !InTable(g, g.blockBitmap) && !InTable(g, g.inodeBitmap)
  }

  // ---- bitmaps ----

  predicate Used(bm: Block, i: nat)
    requires i < BITS
  {
    Bit(bm[i / 8], i % 8)
  }

  function Mark(bm: Block, i: nat): (r: Block)
    requires i < BITS
    ensures forall j :: 0 <= j < BITS ==> Used(r, j) == (j == i || Used(bm, j))
  {
    BitsStayInWidth(bm[i / 8], i % 8, 8);
    assert Pow2(8) == 256;
    var r: Block := bm[i / 8 := SetBit(bm[i / 8], i % 8)];
    assert forall j :: 0 <= j < BITS ==> Used(r, j) == (j == i || Used(bm, j)) by {
      forall j | 0 <= j < BITS ensures Used(r, j) == (j == i || Used(bm, j)) {
        SetBitAt(bm[i / 8], i % 8, j % 8);
      }
    }
    r
  }

  function Unmark(bm: Block, i: nat): (r: Block)
    requires i < BITS
    ensures forall j :: 0 <= j < BITS ==> Used(r, j) == (j != i && Used(bm, j))
  {
    BitsStayInWidth(bm[i / 8], i % 8, 8);
    assert Pow2(8) == 256;
    var r: Block := bm[i / 8 := ClearBit(bm[i / 8], i % 8)];
    assert forall j :: 0 <= j < BITS ==> Used(r, j) == (j != i && Used(bm, j)) by {
      forall j | 0 <= j < BITS ensures Used(r, j) == (j != i && Used(bm, j)) {
        ClearBitAt(bm[i / 8], i % 8, j % 8);
      }
    }
    r
  }

  /** Number `x` (a block or an inode) is held by bit `x - 1`. */
  predicate IsFree(bm: Block, x: nat)
    requires 1 <= x <= BITS
  {
    !Used(bm, x - 1)
  }

  /** Numbers `1..limit` whose bit (`number - 1`) is clear: the free blocks or free inodes. */
  ghost function FreeNumbers(bm: Block, limit: nat): set<nat>
    requires limit <= BITS
  {
    set x: nat | 1 <= x <= limit && IsFree(bm, x)
  }

  lemma MarkTakesOne(bm: Block, limit: nat, x: nat)
    requires 1 <= x <= limit <= BITS && IsFree(bm, x)
    ensures FreeNumbers(Mark(bm, x - 1), limit) == FreeNumbers(bm, limit) - {x}
    ensures |FreeNumbers(bm, limit)| == |FreeNumbers(Mark(bm, x - 1), limit)| + 1
  {
    assert FreeNumbers(bm, limit) == FreeNumbers(Mark(bm, x - 1), limit) + {x};
  }

  lemma UnmarkReturnsOne(bm: Block, limit: nat, x: nat)
    requires 1 <= x <= limit <= BITS && !IsFree(bm, x)
    ensures FreeNumbers(Unmark(bm, x - 1), limit) == FreeNumbers(bm, limit) + {x}
    ensures |FreeNumbers(Unmark(bm, x - 1), limit)| == |FreeNumbers(bm, limit)| + 1
  {
    assert FreeNumbers(Unmark(bm, x - 1), limit) == FreeNumbers(bm, limit) + {x};
  }

  /** The allocators' scan: skip full bytes, then take the lowest clear bit. */
  method FindClear(bits: Block) returns (found: bool, i: nat)
    ensures found ==> i < BITS && !Used(bits, i) && forall j :: 0 <= j < i ==> Used(bits, j)
    ensures !found ==> forall j :: 0 <= j < BITS ==> Used(bits, j)
  {
    for k := 0 to BLOCK
      invariant forall j :: 0 <= j < 8 * k ==> Used(bits, j)
    {
      assert Pow2(8) == 256;
      AllBitsSet(bits[k], 8);
      if bits[k] == 0xFF {
        forall j | 8 * k <= j < 8 * k + 8 ensures Used(bits, j) {
          assert Bit(bits[k], j % 8);
        }
        continue;
      }
      for bit := 0 to 8
        invariant forall j :: 0 <= j < 8 * k + bit ==> Used(bits, j)
      {
        assert Used(bits, 8 * k + bit) == Bit(bits[k], bit);
        if !Bit(bits[k], bit) {
          return true, 8 * k + bit;
        }
      }
    }
    return false, 0;
  }

  // ---- inode records ----

  datatype Inode = Inode(
    mode: nat,
    size: nat,
    sectors: nat,
    atime: nat,
    ctime: nat,
    mtime: nat,
    blocks: seq<nat>)

  predicate InodeOk(ino: Inode) {
    && ino.mode < 0x1_0000
    && ino.size < 0x1_0000_0000 && ino.sectors < 0x1_0000_0000
    && ino.atime < 0x1_0000_0000 && ino.ctime < 0x1_0000_0000 && ino.mtime < 0x1_0000_0000
    && |ino.blocks| == 15
    && forall i :: 0 <= i < 15 ==> ino.blocks[i] < 0x1_0000_0000
  }

  function RecordBlock(g: Geometry, n: nat): nat
    requires n >= 1
  {
    g.inodeTable + (n - 1) * INODE_SIZE / BLOCK
  }

  function RecordOffset(n: nat): (o: nat)
    requires n >= 1
    ensures o + INODE_SIZE <= BLOCK
  {
    (n - 1) * INODE_SIZE % BLOCK
  }

  function DecodeInode(b: Block, o: nat): (ino: Inode)
    requires o + INODE_SIZE <= BLOCK
    ensures InodeOk(ino)
  {
    Inode(U16At(b, o), U32At(b, o + 4), U32At(b, o + 28),
          U32At(b, o + 8), U32At(b, o + 12), U32At(b, o + 16),
          seq(15, i requires 0 <= i < 15 => U32At(b, o + 40 + 4 * i)))
  }

  function PutPointers(b: Block, o: nat, ptrs: seq<nat>): (r: Block)
    requires o + 4 * |ptrs| <= BLOCK
    requires forall i :: 0 <= i < |ptrs| ==> ptrs[i] < 0x1_0000_0000
    decreases |ptrs|
    ensures forall i :: 0 <= i < |ptrs| ==> U32At(r, o + 4 * i) == ptrs[i]
    ensures forall i :: 0 <= i < BLOCK && (i < o || o + 4 * |ptrs| <= i) ==> r[i] == b[i]
  {
    if ptrs == [] then b
    else
      var k := |ptrs| - 1;
      var rest := PutPointers(b, o, ptrs[..k]);
      var r := PutU32(rest, o + 4 * k, ptrs[k]);
      PointersKept(rest, r, o, k);
      assert forall i :: 0 <= i < k ==> ptrs[..k][i] == ptrs[i];
      r
  }

  lemma PointersKept(b: Block, c: Block, o: nat, k: nat)
    requires o + 4 * k <= BLOCK && forall i :: o <= i < o + 4 * k ==> c[i] == b[i]
    ensures forall i :: 0 <= i < k ==> U32At(c, o + 4 * i) == U32At(b, o + 4 * i)
  {
    hide U32At;
    forall i | 0 <= i < k ensures U32At(c, o + 4 * i) == U32At(b, o + 4 * i) {
      SameU32(b, c, o + 4 * i);
    }
  }

  function PutTimes(b: Block, o: nat, ino: Inode): (r: Block)
    requires o + INODE_SIZE <= BLOCK && InodeOk(ino)
    ensures U32At(r, o + 8) == ino.atime && U32At(r, o + 12) == ino.ctime && U32At(r, o + 16) == ino.mtime
    ensures forall i :: 0 <= i < BLOCK && (i < o + 8 || o + 20 <= i) ==> r[i] == b[i]
  {
    PutU32(PutU32(PutU32(b, o + 8, ino.atime), o + 12, ino.ctime), o + 16, ino.mtime)
  }

  function PutSizes(b: Block, o: nat, ino: Inode): (r: Block)
    requires o + INODE_SIZE <= BLOCK && InodeOk(ino)
    ensures U16At(r, o) == ino.mode && U32At(r, o + 4) == ino.size && U32At(r, o + 28) == ino.sectors
    ensures forall i :: 0 <= i < BLOCK && (i < o || o + 32 <= i) ==> r[i] == b[i]
  {
    PutU32(PutU32(PutU16(b, o, ino.mode), o + 4, ino.size), o + 28, ino.sectors)
  }

  lemma SameU32(b: Block, c: Block, o: nat)
    requires o + 4 <= BLOCK && forall i :: o <= i < o + 4 ==> c[i] == b[i]
    ensures U32At(c, o) == U32At(b, o) && U16At(c, o) == U16At(b, o)
  {
  }

  /** The fields other than the pointers survive writing the pointers, and the first ones the times. */
  lemma HeaderKept(b1: Block, b2: Block, r: Block, o: nat)
    requires o + INODE_SIZE <= BLOCK
    requires forall i :: 0 <= i < BLOCK && (i < o + 8 || o + 20 <= i) ==> b2[i] == b1[i]
    requires forall i :: 0 <= i < BLOCK && (i < o + 40 || o + 100 <= i) ==> r[i] == b2[i]
    ensures U16At(r, o) == U16At(b1, o) && U32At(r, o + 4) == U32At(b1, o + 4) && U32At(r, o + 28) == U32At(b1, o + 28)
    ensures U32At(r, o + 8) == U32At(b2, o + 8) && U32At(r, o + 12) == U32At(b2, o + 12) && U32At(r, o + 16) == U32At(b2, o + 16)
  {
    hide U16At, U32At;
    SameU32(b1, r, o);
    SameU32(b1, r, o + 4);
    SameU32(b1, r, o + 28);
    SameU32(b2, r, o + 8);
    SameU32(b2, r, o + 12);
    SameU32(b2, r, o + 16);
  }

  function EncodeInode(b: Block, o: nat, ino: Inode): (r: Block)
    requires o + INODE_SIZE <= BLOCK && InodeOk(ino)
    ensures DecodeInode(r, o) == ino
    ensures forall i :: 0 <= i < BLOCK && (i < o || o + INODE_SIZE <= i) ==> r[i] == b[i]
  {
    var b1 := PutSizes(b, o, ino);
    var b2 := PutTimes(b1, o, ino);
    var r := PutPointers(b2, o + 40, ino.blocks);
    Encoded(b1, b2, r, o, ino);
    r
  }

  /** Sizes, times and pointers written one after the other read back as the inode. */
  lemma Encoded(b1: Block, b2: Block, r: Block, o: nat, ino: Inode)
    requires o + INODE_SIZE <= BLOCK && InodeOk(ino)
    requires U16At(b1, o) == ino.mode && U32At(b1, o + 4) == ino.size && U32At(b1, o + 28) == ino.sectors
    requires U32At(b2, o + 8) == ino.atime && U32At(b2, o + 12) == ino.ctime && U32At(b2, o + 16) == ino.mtime
    requires forall i :: 0 <= i < 15 ==> U32At(r, o + 40 + 4 * i) == ino.blocks[i]
    requires forall i :: 0 <= i < BLOCK && (i < o + 8 || o + 20 <= i) ==> b2[i] == b1[i]
    requires forall i :: 0 <= i < BLOCK && (i < o + 40 || o + 100 <= i) ==> r[i] == b2[i]
    ensures DecodeInode(r, o) == ino
  {
    hide U16At, U32At;
    HeaderKept(b1, b2, r, o);
    assert DecodeInode(r, o).blocks == ino.blocks;
  }

  function InodeAt(g: Geometry, d: Disk, n: nat): (ino: Inode)
    requires GeometryOk(g) && |d| == g.blocks && 1 <= n <= g.inodes
    ensures InodeOk(ino)
  {
    DecodeInode(d[RecordBlock(g, n)], RecordOffset(n))
  }

  function PutInode(g: Geometry, d: Disk, n: nat, ino: Inode): (r: Disk)
    requires GeometryOk(g) && |d| == g.blocks && 1 <= n <= g.inodes && InodeOk(ino)
    ensures |r| == |d|
  {
    d[RecordBlock(g, n) := EncodeInode(d[RecordBlock(g, n)], RecordOffset(n), ino)]
  }

  lemma DecodeDependsOnRecord(b: Block, c: Block, o: nat)
    requires o + INODE_SIZE <= BLOCK
    requires forall i :: o <= i < o + INODE_SIZE ==> b[i] == c[i]
    ensures DecodeInode(b, o) == DecodeInode(c, o)
  {
    assert DecodeInode(b, o).blocks == DecodeInode(c, o).blocks;
  }

  /** Two records in one block do not overlap. */
  lemma RecordsApart(g: Geometry, n: nat, m: nat)
    requires 1 <= n && 1 <= m && n != m && RecordBlock(g, n) == RecordBlock(g, m)
    ensures RecordOffset(m) + INODE_SIZE <= RecordOffset(n) || RecordOffset(n) + INODE_SIZE <= RecordOffset(m)
  {
  }

  /** An inode written back is the inode read next, and no other record moves. */
  lemma PutInodeAt(g: Geometry, d: Disk, n: nat, ino: Inode)
    requires GeometryOk(g) && |d| == g.blocks && 1 <= n <= g.inodes && InodeOk(ino)
    ensures InodeAt(g, PutInode(g, d, n, ino), n) == ino
    ensures forall m :: 1 <= m <= g.inodes && m != n ==> InodeAt(g, PutInode(g, d, n, ino), m) == InodeAt(g, d, m)
    ensures forall b :: 0 <= b < |d| && !InTable(g, b) ==> PutInode(g, d, n, ino)[b] == d[b]
  {
    hide DecodeInode, EncodeInode, RecordOffset;
    var r := PutInode(g, d, n, ino);
    forall m | 1 <= m <= g.inodes && m != n ensures InodeAt(g, r, m) == InodeAt(g, d, m) {
      if RecordBlock(g, m) == RecordBlock(g, n) {
        RecordsApart(g, n, m);
        DecodeDependsOnRecord(d[RecordBlock(g, n)], r[RecordBlock(g, n)], RecordOffset(m));
      }
    }
  }
}
