/**
 The block tree of an inode: 12 direct pointers, one single-indirect table and one
 double-indirect table of tables, stored in pointer blocks on the disk.

 A `Slot` names a position in the tree. `own` maps every block that hangs in some tree
 to the one place it hangs in; being a map, it is what rules out sharing.
 */
module Ext2Tree {
  import opened Bytes
  import opened Ext2Layout

  const DIRECT: nat := 12
  const PTRS: nat := 256
  /** Logical blocks reachable without a triple-indirect table. */
  const MAX_BLOCKS: nat := DIRECT + PTRS + PTRS * PTRS

  datatype Slot =
    | Direct(i: nat)
    | SingleTable
    | Single(k: nat)
    | DoubleTable
    | Mid(k: nat)
    | Double(k: nat, j: nat)

  predicate SlotOk(s: Slot) {
    match s
    case Direct(i) => i < DIRECT
    case Single(k) => k < PTRS
    case Mid(k) => k < PTRS
    case Double(k, j) => k < PTRS && j < PTRS
    case _ => true
  }

  predicate IsTable(s: Slot) {
    s.SingleTable? || s.DoubleTable? || s.Mid?
  }

  /** The slot of logical block `idx`. */
  function SlotOf(idx: nat): (s: Slot)
    requires idx < MAX_BLOCKS
    ensures SlotOk(s) && !IsTable(s)
  {
    if idx < DIRECT then Direct(idx)
    else if idx - DIRECT < PTRS then Single(idx - DIRECT)
    else
      var r := idx - DIRECT - PTRS;
      Double(r / PTRS, r % PTRS)
  }

  lemma SlotOfInjective(a: nat, b: nat)
    requires a < MAX_BLOCKS && b < MAX_BLOCKS && SlotOf(a) == SlotOf(b)
    ensures a == b
  {
  }

  /** The `k`-th pointer of table `t`; a missing table holds only zeros. */
  function Ptr(d: Disk, t: nat, k: nat): (p: nat)
    requires k < PTRS
    ensures p < 0x1_0000_0000
  {
    if t == 0 || t >= |d| then 0 else U32At(d[t], 4 * k)
  }

  /** The block in slot `s` of the tree rooted in the pointer array `bl`; 0 for a hole. */
  function At(d: Disk, bl: seq<nat>, s: Slot): nat
    requires |bl| == 15 && SlotOk(s)
  {
    match s
    case Direct(i) => bl[i]
    case SingleTable => bl[12]
    case Single(k) => Ptr(d, bl[12], k)
    case DoubleTable => bl[13]
    case Mid(k) => Ptr(d, bl[13], k)
    case Double(k, j) => Ptr(d, Ptr(d, bl[13], k), j)
  }

  datatype Place = Place(ino: nat, slot: Slot)

  /**
   One state of the volume: the disk, the inodes as the driver holds them (an inode under
   modification is ahead of its on-disk record), and the owner of every block in a tree.
   */
  datatype Vol = Vol(d: Disk, files: map<nat, Inode>, own: map<nat, Place>)

  ghost predicate InodesOk(v: Vol) {
    forall n :: n in v.files ==> InodeOk(v.files[n])
  }

  /** The block in slot `s` of file `n`; 0 for a hole. */
  function BlockOf(v: Vol, n: nat, s: Slot): nat
    requires n in v.files && |v.files[n].blocks| == 15 && SlotOk(s)
  {
    At(v.d, v.files[n].blocks, s)
  }

  /** Every block in a tree is owned by exactly the slot it is in, and is not metadata. */
  ghost predicate Owned(v: Vol)
    requires InodesOk(v)
  {
    forall n, s :: n in v.files && SlotOk(s) && BlockOf(v, n, s) != 0 ==>
      BlockOf(v, n, s) in v.own && v.own[BlockOf(v, n, s)] == Place(n, s)
  }

  /** Owners are real: an owned block is a data-area block that hangs where `own` says. */
  ghost predicate Exact(g: Geometry, v: Vol)
    requires InodesOk(v)
  {
    forall b :: b in v.own ==>
      && 0 < b < |v.d| && !IsMeta(g, b)
      && v.own[b].ino in v.files && SlotOk(v.own[b].slot)
      && BlockOf(v, v.own[b].ino, v.own[b].slot) == b
  }

  ghost predicate TreeOk(g: Geometry, v: Vol) {
    InodesOk(v) && Owned(v) && Exact(g, v)
  }

  /** No block is reachable twice, from the same inode or from two, and none is metadata. */
  lemma NoSharing(g: Geometry, v: Vol, n: nat, s: Slot, m: nat, t: Slot)
    requires TreeOk(g, v) && n in v.files && m in v.files && SlotOk(s) && SlotOk(t)
    requires BlockOf(v, n, s) != 0
    requires BlockOf(v, n, s) == BlockOf(v, m, t)
    ensures n == m && s == t
    ensures !IsMeta(g, BlockOf(v, n, s))
  {
  }

  lemma OwnerOf(g: Geometry, v: Vol, b: nat)
    requires TreeOk(g, v) && b in v.own
    ensures 0 < b < |v.d| && !IsMeta(g, b)
    ensures v.own[b].ino in v.files && SlotOk(v.own[b].slot) && BlockOf(v, v.own[b].ino, v.own[b].slot) == b
  {
  }

  lemma PlaceOf(g: Geometry, v: Vol, n: nat, s: Slot)
    requires TreeOk(g, v) && n in v.files && SlotOk(s) && BlockOf(v, n, s) != 0
    ensures BlockOf(v, n, s) in v.own && v.own[BlockOf(v, n, s)] == Place(n, s)
    ensures BlockOf(v, n, s) < |v.d| && !IsMeta(g, BlockOf(v, n, s))
  {
  }

  /** A disk that keeps every table block keeps every tree. */
  lemma TablesFixTree(g: Geometry, v: Vol, d: Disk, n: nat, s: Slot)
    requires TreeOk(g, v) && |d| == |v.d| && n in v.files && SlotOk(s)
    requires forall b :: b in v.own && IsTable(v.own[b].slot) ==> d[b] == v.d[b]
    ensures BlockOf(v.(d := d), n, s) == BlockOf(v, n, s)
  {
    var bl := v.files[n].blocks;
    assert BlockOf(v, n, SingleTable) == bl[12] && BlockOf(v, n, DoubleTable) == bl[13];
    match s {
      case Double(k, j) => assert BlockOf(v, n, Mid(k)) == Ptr(v.d, bl[13], k);
      case _ =>
    }
  }

  lemma TablesFixAll(g: Geometry, v: Vol, d: Disk)
    requires TreeOk(g, v) && |d| == |v.d|
    requires forall b :: b in v.own && IsTable(v.own[b].slot) ==> d[b] == v.d[b]
    ensures TreeOk(g, v.(d := d))
    ensures forall n, s :: n in v.files && SlotOk(s) ==>
      BlockOf(v.(d := d), n, s) == BlockOf(v, n, s)
  {
    forall n, s | n in v.files && SlotOk(s)
      ensures BlockOf(v.(d := d), n, s) == BlockOf(v, n, s)
    {
      TablesFixTree(g, v, d, n, s);
    }
  }

  // ---- linking a fresh block into a tree ----

  /** A block that is free to hang somewhere: zeroed, in the data area, owned by nobody. */
  ghost predicate Fresh(g: Geometry, v: Vol, b: nat) {
    0 < b < |v.d| && b < 0x1_0000_0000 && !IsMeta(g, b) && b !in v.own && v.d[b] == ZeroBlock()
  }

  /** The slot a top-level pointer of the inode stands for. */
  function TopSlot(i: nat): (s: Slot)
    requires i < 14
    ensures SlotOk(s)
  {
    if i < 12 then Direct(i) else if i == 12 then SingleTable else DoubleTable
  }

  /** The slot behind pointer `k` of the table in slot `t`. */
  function Child(t: Slot, k: nat): (s: Slot)
    requires SlotOk(t) && IsTable(t) && k < PTRS
    ensures SlotOk(s)
  {
    match t
    case SingleTable => Single(k)
    case DoubleTable => Mid(k)
    case Mid(m) => Double(m, k)
  }

  function LinkTop(v: Vol, n: nat, i: nat, b: nat): (w: Vol)
    requires InodesOk(v) && n in v.files && i < 14 && b < 0x1_0000_0000
    ensures InodesOk(w)
  {
    var ino := v.files[n];
    Vol(v.d,
        v.files[n := ino.(blocks := ino.blocks[i := b], sectors := (ino.sectors + 2) % 0x1_0000_0000)],
        v.own[b := Place(n, TopSlot(i))])
  }

  /** Hanging a fresh block off the inode fills that one slot and moves nothing else. */
  lemma LinkTopAt(g: Geometry, v: Vol, n: nat, i: nat, b: nat, m: nat, s: Slot)
    requires TreeOk(g, v) && n in v.files && i < 14 && Fresh(g, v, b)
    requires v.files[n].blocks[i] == 0
    requires m in v.files && SlotOk(s)
    ensures BlockOf(LinkTop(v, n, i, b), m, s) ==
            if m == n && s == TopSlot(i) then b else BlockOf(v, m, s)
  {
    ZeroBlockPointers();
  }

  lemma ZeroBlockPointers()
    ensures forall k: nat :: k < PTRS ==> U32At(ZeroBlock(), 4 * k) == 0
  {
  }

  lemma LinkTopOk(g: Geometry, v: Vol, n: nat, i: nat, b: nat)
    requires TreeOk(g, v) && n in v.files && i < 14 && Fresh(g, v, b)
    requires v.files[n].blocks[i] == 0
    ensures TreeOk(g, LinkTop(v, n, i, b))
  {
    var w := LinkTop(v, n, i, b);
    forall m, s | m in w.files && SlotOk(s)
      ensures BlockOf(w, m, s) ==
            if m == n && s == TopSlot(i) then b else BlockOf(v, m, s)
    {
      LinkTopAt(g, v, n, i, b, m, s);
    }
  }

  function LinkTable(v: Vol, t: nat, k: nat, b: nat): (w: Vol)
    requires t in v.own && t < |v.d| && k < PTRS && b < 0x1_0000_0000
    requires SlotOk(v.own[t].slot) && IsTable(v.own[t].slot)
  {
    Vol(v.d[t := PutU32(v.d[t], 4 * k, b)],
        v.files,
        v.own[b := Place(v.own[t].ino, Child(v.own[t].slot, k))])
  }

  /** Hanging a fresh block off a pointer table fills that one slot and moves nothing else. */
  lemma LinkTableAt(g: Geometry, v: Vol, t: nat, k: nat, b: nat, m: nat, s: Slot)
    requires TreeOk(g, v) && Fresh(g, v, b)
    requires t in v.own && IsTable(v.own[t].slot) && k < PTRS && Ptr(v.d, t, k) == 0
    requires m in v.files && SlotOk(s)
    ensures BlockOf(LinkTable(v, t, k, b), m, s) ==
            if m == v.own[t].ino && s == Child(v.own[t].slot, k) then b
            else BlockOf(v, m, s)
  {
    if s.Double? {
      LinkTableAtDouble(g, v, t, k, b, m, s.k, s.j);
    } else {
      LinkTableAtShallow(g, v, t, k, b, m, s);
    }
  }

  lemma LinkTableAtShallow(g: Geometry, v: Vol, t: nat, k: nat, b: nat, m: nat, s: Slot)
    requires TreeOk(g, v) && Fresh(g, v, b)
    requires t in v.own && IsTable(v.own[t].slot) && k < PTRS && Ptr(v.d, t, k) == 0
    requires m in v.files && SlotOk(s) && !s.Double?
    ensures BlockOf(LinkTable(v, t, k, b), m, s) ==
            if m == v.own[t].ino && s == Child(v.own[t].slot, k) then b
            else BlockOf(v, m, s)
  {
    LinkTablePtr(v, t, k, b);
    assert BlockOf(v, v.own[t].ino, v.own[t].slot) == t;
    assert BlockOf(v, m, SingleTable) == v.files[m].blocks[12];
    assert BlockOf(v, m, DoubleTable) == v.files[m].blocks[13];
  }

  lemma LinkTableAtDouble(g: Geometry, v: Vol, t: nat, k: nat, b: nat, m: nat, p: nat, q: nat)
    requires TreeOk(g, v) && Fresh(g, v, b)
    requires t in v.own && IsTable(v.own[t].slot) && k < PTRS && Ptr(v.d, t, k) == 0
    requires m in v.files && p < PTRS && q < PTRS
    ensures BlockOf(LinkTable(v, t, k, b), m, Double(p, q)) ==
            if m == v.own[t].ino && Double(p, q) == Child(v.own[t].slot, k) then b
            else BlockOf(v, m, Double(p, q))
  {
    var w := LinkTable(v, t, k, b);
    LinkTableAtShallow(g, v, t, k, b, m, Mid(p));
    var mid := BlockOf(v, m, Mid(p));
    assert Ptr(w.d, BlockOf(w, m, Mid(p)), q) == BlockOf(w, m, Double(p, q));
    LinkTablePtr(v, t, k, b);
    assert BlockOf(v, v.own[t].ino, v.own[t].slot) == t;
    if m == v.own[t].ino && Mid(p) == Child(v.own[t].slot, k) {
      ZeroBlockPointers();
      assert mid == 0;
    }
  }

  lemma LinkTablePtr(v: Vol, t: nat, k: nat, b: nat)
    requires t in v.own && 0 < t < |v.d| && k < PTRS && b < 0x1_0000_0000
    requires SlotOk(v.own[t].slot) && IsTable(v.own[t].slot)
    ensures forall u: nat, q: nat :: q < PTRS ==>
      Ptr(LinkTable(v, t, k, b).d, u, q) == if u == t && q == k then b else Ptr(v.d, u, q)
  {
  }

  lemma LinkTableOk(g: Geometry, v: Vol, t: nat, k: nat, b: nat)
    requires TreeOk(g, v) && Fresh(g, v, b)
    requires t in v.own && IsTable(v.own[t].slot) && k < PTRS && Ptr(v.d, t, k) == 0
    ensures TreeOk(g, LinkTable(v, t, k, b))
  {
    var w := LinkTable(v, t, k, b);
    forall m, s | m in w.files && SlotOk(s)
      ensures BlockOf(w, m, s) ==
            if m == v.own[t].ino && s == Child(v.own[t].slot, k) then b
            else BlockOf(v, m, s)
    {
      LinkTableAt(g, v, t, k, b, m, s);
    }
  }
}
