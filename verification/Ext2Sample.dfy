/** A small volume that mounts, and does not mount again once its free counts were stored. */
module Ext2Sample {
  import opened Bytes
  import opened Fs
  import opened Ext2Layout
  import opened Ext2Tree
  import opened Ext2Data
  import opened Ext2Volume
  import opened Ext2Links
  import opened Ext2

  /** Eight blocks and eight inodes, one group, nothing free. */
  function FullSuper(): (b: Block)
    ensures forall i :: 0 <= i < 1024 ==> b[i] == SuperByte(i)
  {
    seq<byte>(1024, i => SuperByte(i))
  }

  function SuperByte(i: int): byte {
    if i == 0 || i == 4 || i == 32 || i == 40 then 8
    else if i == 20 then 1
    else if i == 56 then 0x53
    else if i == 57 then 0xEF
    else 0
  }

  lemma SuperField(o: nat)
    requires o + 4 <= 1024
    ensures U32At(FullSuper(), o) == SuperByte(o) + 0x100 * SuperByte(o + 1) + 0x1_0000 * (SuperByte(o + 2) + 0x100 * SuperByte(o + 3))
  {
    hide FullSuper, SuperByte;
  }

  lemma SuperReads()
    ensures var b := FullSuper();
      && U32At(b, 0) == U32At(b, 4) == U32At(b, 32) == U32At(b, 40) == 8
      && U32At(b, 12) == U32At(b, 16) == U32At(b, 24) == U32At(b, 76) == 0
      && U32At(b, 20) == 1 && U16At(b, 56) == SUPER_MAGIC
  {
    assert U16At(FullSuper(), 56) == SUPER_MAGIC;
    hide FullSuper, U32At, U16At;
    SuperField(0);
    SuperField(4);
    SuperField(12);
    SuperField(16);
    SuperField(20);
    SuperField(24);
    SuperField(32);
    SuperField(40);
    SuperField(76);
  }

  /** Block bitmap 3, inode bitmap 4, inode table 5. */
  function FullGroup(): (b: Block)
    ensures U32At(b, 0) == 3 && U32At(b, 4) == 4 && MountTable(b) == 5
  {
    seq<byte>(1024, i => if i == 0 then 3 else if i == 4 then 4 else if i == 8 then 5 else 0)
  }

  function FullBitmap(): (b: Block)
    ensures forall i :: 0 <= i < 1024 ==> b[i] == 255
  {
    seq<byte>(1024, i => 255)
  }

  function FullDisk(): (d: Disk)
    ensures |d| == 8
  {
    [ZeroBlock(), FullSuper(), FullGroup(), FullBitmap(), FullBitmap(), ZeroBlock(), ZeroBlock(), ZeroBlock()]
  }

  lemma AllUsed(limit: nat)
    requires limit <= BITS
    ensures FreeNumbers(FullBitmap(), limit) == {}
  {
    forall x: nat | 1 <= x <= limit ensures !IsFree(FullBitmap(), x) {
      AllBits((x - 1) % 8);
    }
  }

  lemma AllBits(k: nat)
    requires k < 8
    ensures Bit(255, k)
  {
    assert k == 0 || k == 1 || k == 2 || k == 3 || k == 4 || k == 5 || k == 6 || k == 7;
  }

  lemma FullMounts()
    ensures Mount(FullSuper(), FullGroup()) == Ok(Super(Geometry(8, 8, 3, 4, 5), 0, 0)) && GeometryOk(Geometry(8, 8, 3, 4, 5))
  {
    hide FullSuper, FullGroup, U32At, U16At;
    SuperReads();
  }

  /** Storing the counts of a full volume zeroes its inode-table pointer, and mounting refuses it from then on. */
  method MountedOnce() returns (e: Ext2, again: Result<Super>)
    ensures fresh(e) && again.Err? && |e.disk| >= 3 && again == Mount(e.disk[1], e.disk[2])
  {
    hide FreeNumbers, FullSuper, FullGroup, FullBitmap, U32At, U16At, Mount;
    FullMounts();
    AllUsed(7);
    AllUsed(8);
    e := new Ext2(FullDisk(), map[], map[], map[], {});
    e.SyncFreeCounts();
    NoTable(e.disk[1], e.disk[2]);
    again := Mount(e.disk[1], e.disk[2]);
  }

  lemma NoTable(sb: Block, gd: Block)
    requires MountTable(gd) == 0
    ensures Mount(sb, gd).Err?
  {
  }
}
