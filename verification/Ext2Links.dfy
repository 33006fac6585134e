/**
 The name space of the volume: directories as file contents, the links they hold, and the
 invariants that tie links to live inodes.
 */
module Ext2Links {
  import opened Bytes
  import opened Ext2Layout
  import opened Ext2Tree
  import opened Ext2Data
  import opened Ext2Dir
  import opened Ext2Names

  /** `mode & 0xF000 == MODE_DIR` */
  predicate IsDirectory(ino: Inode) {
    ino.mode / 0x1000 % 16 == 4
  }

  /** `.` or `..` */
  predicate IsDot(name: Name) {
    name == [46] || name == [46, 46]
  }

  // ---- a directory's blocks are its data ----

  lemma ChunkIsData(v: Vol, n: nat, l: nat)
    requires n in v.files && |v.files[n].blocks| == 15 && v.files[n].size <= MAX_BYTES
    requires BLOCK * (l + 1) <= v.files[n].size
    ensures l < MAX_BLOCKS && Chunk(Content(v, n), l) == DataAt(v, n, SlotOf(l))
  {
    hide SlotOf, DataAt;
    var c := Content(v, n);
    forall i | 0 <= i < BLOCK ensures Chunk(c, l)[i] == DataAt(v, n, SlotOf(l))[i] {
      assert Chunk(c, l)[i] == c[BLOCK * l + i] == ByteAt(v, n, BLOCK * l + i);
      assert (BLOCK * l + i) / BLOCK == l && (BLOCK * l + i) % BLOCK == i;
    }
  }

  /** A tiled block is not a hole. */
  lemma TiledIsMapped(v: Vol, n: nat, l: nat)
    requires n in v.files && |v.files[n].blocks| == 15 && v.files[n].size <= MAX_BYTES
    requires BLOCK * (l + 1) <= v.files[n].size && Tiles(Chunk(Content(v, n), l), 0, BLOCK)
    ensures BlockOf(v, n, SlotOf(l)) != 0
  {
    ChunkIsData(v, n, l);
    assert RecLen(Chunk(Content(v, n), l), 0) >= 8;
  }

  /** Same pointers to same data, same size: same contents. */
  lemma SameContent(v: Vol, w: Vol, n: nat)
    requires n in v.files && n in w.files && |v.files[n].blocks| == |w.files[n].blocks| == 15
    requires v.files[n].size == w.files[n].size <= MAX_BYTES
    requires forall s :: SlotOk(s) && !IsTable(s) ==> DataAt(w, n, s) == DataAt(v, n, s)
    ensures Content(w, n) == Content(v, n)
    ensures TailZero(v, n) ==> TailZero(w, n)
  {
    hide SlotOf, DataAt;
    forall pos: nat | pos < MAX_BYTES ensures ByteAt(w, n, pos) == ByteAt(v, n, pos) {
      assert DataAt(w, n, SlotOf(pos / BLOCK)) == DataAt(v, n, SlotOf(pos / BLOCK));
    }
  }

  /** Rewriting block `l` of a directory changes that chunk of its contents only. */
  lemma DirBlockWritten(v: Vol, w: Vol, n: nat, l: nat, x: Block)
    requires n in v.files && n in w.files && |v.files[n].blocks| == |w.files[n].blocks| == 15
    requires v.files[n].size == w.files[n].size <= MAX_BYTES && BLOCK * (l + 1) <= v.files[n].size
    requires forall pos: nat :: pos < MAX_BYTES ==>
      ByteAt(w, n, pos) == if pos / BLOCK == l then x[pos % BLOCK] else ByteAt(v, n, pos)
    ensures Chunk(Content(w, n), l) == x
    ensures forall k :: 0 <= k < v.files[n].size / BLOCK && k != l ==> Chunk(Content(w, n), k) == Chunk(Content(v, n), k)
    ensures TailZero(v, n) ==> TailZero(w, n)
  {
    hide ByteAt;
    forall i | 0 <= i < BLOCK ensures Chunk(Content(w, n), l)[i] == x[i] {
      assert Chunk(Content(w, n), l)[i] == ByteAt(w, n, BLOCK * l + i);
    }
    forall k | 0 <= k < v.files[n].size / BLOCK && k != l ensures Chunk(Content(w, n), k) == Chunk(Content(v, n), k) {
      forall i | 0 <= i < BLOCK ensures Chunk(Content(w, n), k)[i] == Chunk(Content(v, n), k)[i] {
        assert Chunk(Content(w, n), k)[i] == ByteAt(w, n, BLOCK * k + i);
        assert Chunk(Content(v, n), k)[i] == ByteAt(v, n, BLOCK * k + i);
      }
    }
  }

  /** Rewriting record `k` of a directory by the list `rs` rewrites it in the record list. */
  lemma DirRecordReplaced(c: seq<byte>, e: seq<byte>, b: nat, i: nat, p: nat, q: nat, rs: seq<Rec>)
    requires DirTiled(c) && |e| == |c| && b < |c| / BLOCK
    requires forall l :: 0 <= l < |c| / BLOCK && l != b ==> Chunk(e, l) == Chunk(c, l)
    requires i < |Recs(Chunk(c, b), 0, BLOCK, BLOCK * b)|
    requires Recs(Chunk(c, b), 0, BLOCK, BLOCK * b)[i].off == BLOCK * b + p
    requires Recs(Chunk(c, b), 0, BLOCK, BLOCK * b)[i].len == q - p && q <= BLOCK
    requires forall k :: 0 <= k < BLOCK && !(p <= k < q) ==> Chunk(e, b)[k] == Chunk(c, b)[k]
    requires Tiles(Chunk(e, b), p, q) && Recs(Chunk(e, b), p, q, BLOCK * b) == rs
    ensures DirTiled(e)
    ensures var k := |EntriesTo(c, b)| + i;
      k < |Entries(c)| && Entries(e) == Entries(c)[..k] + rs + Entries(c)[k + 1..]
  {
    hide Tiles, Recs, Chunk;
    ReplaceRecord(Chunk(c, b), Chunk(e, b), BLOCK * b, i, p, q);
    assert DirTiled(e);
    EntriesReplace(c, e, |c| / BLOCK, b, i, rs);
  }

  /** A fresh block with one full-size record extends the record list by that record. */
  lemma DirExtended(c: seq<byte>, e: seq<byte>, name: Name, target: nat)
    requires DirTiled(c) && |e| == |c| + BLOCK && e[..|c|] == c && 0 < target < 0x1_0000_0000 && |name| <= 255
    requires e[|c|..] == WriteEntry(ZeroBlock(), 0, target, name, BLOCK)
    ensures DirTiled(e) && Entries(e) == Entries(c) + [Rec(target, name, BLOCK, |c|)]
  {
    hide Tiles, Recs, WriteEntry;
    var l := |c| / BLOCK;
    WrittenEntry(ZeroBlock(), 0, target, name, BLOCK, BLOCK * l);
    assert Chunk(e, l) == e[|c|..];
    forall k | 0 <= k < l ensures Chunk(e, k) == Chunk(c, k) {
      assert e[..|c|][BLOCK * k..BLOCK * (k + 1)] == e[BLOCK * k..BLOCK * (k + 1)];
    }
    assert DirTiled(e);
    EntriesLocal(c, e, l);
  }

  /** Where record `k` of a directory is: its block, its offset, its bytes. */
  lemma RecordPlace(c: seq<byte>, k: nat) returns (i: nat)
    requires DirTiled(c) && k < |Entries(c)|
    ensures var r := Entries(c)[k]; var b := r.off / BLOCK; var p := r.off % BLOCK;
      && b < |c| / BLOCK && p + r.len <= BLOCK
      && RecOk(Chunk(c, b), p, BLOCK) && RecAt(Chunk(c, b), p, BLOCK * b) == r
      && i < |Recs(Chunk(c, b), 0, BLOCK, BLOCK * b)| && Recs(Chunk(c, b), 0, BLOCK, BLOCK * b)[i] == r
      && k == |EntriesTo(c, b)| + i
  {
    hide Tiles, Recs, Chunk, RecOk, RecAt;
    var b;
    b, i := Locate(c, |c| / BLOCK, k);
    TilesSplit(Chunk(c, b), 0, BLOCK, BLOCK * b, i);
    var r := Entries(c)[k];
    SpanBounds(Chunk(c, b), r.off - BLOCK * b, BLOCK * b);
    assert r.off / BLOCK == b && r.off % BLOCK == r.off - BLOCK * b;
  }

  /** Rewriting the bytes of one record on disk: the record list follows, no other file notices. */
  lemma DirEdit(g: Geometry, v: Vol, n: nat, c: seq<byte>, k: nat, b: nat, p: nat, q: nat, x: Block, rs: seq<Rec>)
    requires TreeOk(g, v) && n in v.files && v.files[n].size <= MAX_BYTES && c == Content(v, n)
    requires DirTiled(c) && k < |Entries(c)|
    requires Entries(c)[k].off == BLOCK * b + p && Entries(c)[k].len == q - p && p < BLOCK && q <= BLOCK
    requires b < |c| / BLOCK
    requires forall i :: 0 <= i < BLOCK && !(p <= i < q) ==> x[i] == Chunk(c, b)[i]
    requires Tiles(x, p, q) && Recs(x, p, q, BLOCK * b) == rs
    ensures b < MAX_BLOCKS && BlockOf(v, n, SlotOf(b)) in v.own && BlockOf(v, n, SlotOf(b)) < |v.d|
    ensures var w := v.(d := v.d[BlockOf(v, n, SlotOf(b)) := x]);
      && TreeOk(g, w)
      && (forall m, t :: m in v.files && m != n && SlotOk(t) && !IsTable(t) ==> DataAt(w, m, t) == DataAt(v, m, t))
      && DirTiled(Content(w, n)) && Entries(Content(w, n)) == Entries(c)[..k] + rs + Entries(c)[k + 1..]
      && (TailZero(v, n) ==> TailZero(w, n))
  {
    hide Tiles, Recs, Chunk, RecOk, RecAt, Owned, Exact, SlotOf, DataAt, BlockOf, Entries, Content, ByteAt, TailZero;
    var i := RecordPlace(c, k);
    assert (BLOCK * b + p) / BLOCK == b;
    TiledIsMapped(v, n, b);
    PlaceOf(g, v, n, SlotOf(b));
    BlockWrite(g, v, n, b, x);
    var w := v.(d := v.d[BlockOf(v, n, SlotOf(b)) := x]);
    DirBlockWritten(v, w, n, b, x);
    DirRecordReplaced(c, Content(w, n), b, i, p, q, rs);
  }

  // ---- links and inodes ----

  ghost predicate ListOk(files: map<nat, Inode>, home: map<nat, nat>, n: nat, ls: seq<Link>) {
    && Distinct(ls)
    && (forall i, j :: 0 <= i < j < |ls| && ls[i].ino == ls[j].ino ==> IsDot(ls[i].name) && IsDot(ls[j].name))
    && (forall i :: 0 <= i < |ls| ==> LinkOk(files, home, n, ls[i]))
  }

  /** A dot names a directory; any other name names a live inode whose home is this directory. */
  ghost predicate LinkOk(files: map<nat, Inode>, home: map<nat, nat>, n: nat, l: Link) {
    && l.ino in files
    && if IsDot(l.name) then IsDirectory(files[l.ino]) else l.ino in home && home[l.ino] == n
  }

  ghost predicate DirOk(v: Vol, home: map<nat, nat>, n: nat)
    requires n in v.files && |v.files[n].blocks| == 15
  {
    && v.files[n].size <= MAX_BYTES
    && DirTiled(Content(v, n))
    && ListOk(v.files, home, n, Live(Entries(Content(v, n))))
  }

  /** Every directory is well formed and every name in it leads to a live inode. */
  ghost predicate NamesOk(v: Vol, home: map<nat, nat>)
    requires InodesOk(v)
  {
    forall n :: n in v.files && IsDirectory(v.files[n]) ==> DirOk(v, home, n)
  }

  /** The map a directory stands for. */
  ghost function DirMap(v: Vol, n: nat): map<Name, nat>
    requires n in v.files && |v.files[n].blocks| == 15 && v.files[n].size <= MAX_BYTES && DirTiled(Content(v, n))
  {
    NameMap(Live(Entries(Content(v, n))))
  }

  lemma ListInsert(files: map<nat, Inode>, more: map<nat, Inode>, home: map<nat, nat>, n: nat, ls: seq<Link>, k: nat, name: Name, t: nat)
    requires ListOk(files, home, n, ls) && k <= |ls|
    requires t !in files && t in more && (forall m :: m in files ==> m in more && more[m].mode == files[m].mode)
    requires !IsDot(name) && name !in NameMap(ls)
    ensures ListOk(more, home[t := n], n, ls[..k] + [Link(name, t)] + ls[k..])
  {
    hide NameMap, IsDot, Distinct;
    var r := ls[..k] + [Link(name, t)] + ls[k..];
    InsertDistinct(ls, k, Link(name, t));
    InsertedAt(ls, k, Link(name, t));
    forall q | 0 <= q < |ls| ensures LinkOk(more, home[t := n], n, ls[q]) && ls[q].ino != t {
      assert LinkOk(files, home, n, ls[q]);
    }
    forall i, j | 0 <= i < j < |r| && r[i].ino == r[j].ino ensures IsDot(r[i].name) && IsDot(r[j].name) {
      assert i != k && j != k;
      assert r[i] == ls[if i < k then i else i - 1] && r[j] == ls[if j < k then j else j - 1];
    }
  }

  lemma InsertedAt(ls: seq<Link>, k: nat, x: Link)
    requires k <= |ls|
    ensures var r := ls[..k] + [x] + ls[k..];
      |r| == |ls| + 1 && r[k] == x && forall i :: 0 <= i < |r| && i != k ==> r[i] == ls[if i < k then i else i - 1]
  {
  }

  /** Lists that do not mention a new inode do not notice it. */
  lemma ListGrow(files: map<nat, Inode>, more: map<nat, Inode>, home: map<nat, nat>, n: nat, ls: seq<Link>, t: nat, p: nat)
    requires ListOk(files, home, n, ls)
    requires t !in files && (forall m :: m in files ==> m in more && more[m].mode == files[m].mode)
    ensures ListOk(more, home[t := p], n, ls)
  {
    forall i | 0 <= i < |ls| ensures LinkOk(more, home[t := p], n, ls[i]) {
      assert LinkOk(files, home, n, ls[i]);
    }
  }

  lemma ListSameModes(files: map<nat, Inode>, more: map<nat, Inode>, home: map<nat, nat>, n: nat, ls: seq<Link>)
    requires ListOk(files, home, n, ls)
    requires forall m :: m in files ==> m in more && more[m].mode == files[m].mode
    ensures ListOk(more, home, n, ls)
  {
    forall i | 0 <= i < |ls| ensures LinkOk(more, home, n, ls[i]) {
      assert LinkOk(files, home, n, ls[i]);
    }
  }

  /** Dropping the only link to a regular file `t` and `t` itself. */
  lemma ListRemove(files: map<nat, Inode>, home: map<nat, nat>, n: nat, ls: seq<Link>, k: nat)
    requires ListOk(files, home, n, ls) && k < |ls| && !IsDirectory(files[ls[k].ino])
    ensures ListOk(files - {ls[k].ino}, home, n, ls[..k] + ls[k + 1..])
  {
    var t := ls[k].ino;
    var r := ls[..k] + ls[k + 1..];
    assert LinkOk(files, home, n, ls[k]);
    forall i | 0 <= i < |r| ensures LinkOk(files - {t}, home, n, r[i]) {
      var q := if i < k then i else i + 1;
      assert r[i] == ls[q] && LinkOk(files, home, n, ls[q]);
    }
    forall i, j | 0 <= i < j < |r| ensures
      r[i].name != r[j].name && (r[i].ino == r[j].ino ==> IsDot(r[i].name) && IsDot(r[j].name))
    {
      assert r[i] == ls[if i < k then i else i + 1] && r[j] == ls[if j < k then j else j + 1];
    }
  }

  /** No other directory mentions a regular file whose home is `p`. */
  lemma ListForget(files: map<nat, Inode>, home: map<nat, nat>, n: nat, ls: seq<Link>, t: nat, p: nat)
    requires ListOk(files, home, n, ls) && n != p
    requires t in files && !IsDirectory(files[t]) && t in home && home[t] == p
    ensures ListOk(files - {t}, home, n, ls)
  {
    forall i | 0 <= i < |ls| ensures LinkOk(files - {t}, home, n, ls[i]) {
      assert LinkOk(files, home, n, ls[i]);
    }
  }

  lemma ListRename(files: map<nat, Inode>, home: map<nat, nat>, n: nat, ls: seq<Link>, k: nat, name: Name)
    requires ListOk(files, home, n, ls) && k < |ls| && !IsDot(ls[k].name)
    requires !IsDot(name) && name !in NameMap(ls)
    ensures ListOk(files, home, n, ls[k := Link(name, ls[k].ino)])
  {
    hide NameMap, IsDot;
    var r := ls[k := Link(name, ls[k].ino)];
    assert LinkOk(files, home, n, ls[k]);
    forall i, j | 0 <= i < j < |r| ensures
      r[i].name != r[j].name && (r[i].ino == r[j].ino ==> IsDot(r[i].name) && IsDot(r[j].name))
    {
      assert i == k ==> Has(ls, r[j].name);
      assert j == k ==> Has(ls, r[i].name);
    }
  }
}
