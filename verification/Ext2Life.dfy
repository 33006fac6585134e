/**
 Birth and death of files: what creating, removing and renaming do to a sound volume.
 */
module Ext2Life {
  import opened Bytes
  import opened Ext2Layout
  import opened Ext2Tree
  import opened Ext2Data
  import opened Ext2Dir
  import opened Ext2Names
  import opened Ext2Links
  import opened Ext2Volume

  // ---- a new inode ----

  predicate NoPointers(ino: Inode) {
    |ino.blocks| == 15 && forall i :: 0 <= i < 15 ==> ino.blocks[i] == 0
  }

  /** A file without pointers joins a sound volume without touching it. */
  lemma NewFile(g: Geometry, v: Vol, d: Disk, t: nat, ino: Inode)
    requires GeometryOk(g) && |v.d| == |d| == g.blocks && TreeOk(g, v) && t !in v.files
    requires InodeOk(ino) && NoPointers(ino)
    requires forall b :: b in v.own ==> d[b] == v.d[b]
    ensures var w := Vol(d, v.files[t := ino], v.own);
      && TreeOk(g, w)
      && (forall m, s :: m in v.files && SlotOk(s) && !IsTable(s) ==> DataAt(w, m, s) == DataAt(v, m, s))
      && (forall s :: SlotOk(s) ==> BlockOf(w, t, s) == 0)
  {
    var x := v.(d := d);
    OwnedBlocksFixData(g, v, d);
    var w := Vol(d, v.files[t := ino], v.own);
    assert forall m, s :: m in v.files && SlotOk(s) ==> BlockOf(w, m, s) == BlockOf(x, m, s);
  }

  lemma OwnedAside(g: Geometry, v: Vol, d: Disk)
    requires GeometryOk(g) && |v.d| == |d| == g.blocks && TreeOk(g, v)
    requires forall b :: 0 <= b < |d| && b != 1 && b != 2 && b != g.inodeBitmap ==> d[b] == v.d[b]
    ensures forall b :: b in v.own ==> d[b] == v.d[b]
  {
    hide Owned, BlockOf;
  }

  /** `u` is `v` with the file `t` added; every other file is as it was. */
  ghost predicate Joined(v: Vol, u: Vol, t: nat)
    requires InodesOk(v) && InodesOk(u)
  {
    && t !in v.files && u.files.Keys == v.files.Keys + {t}
    && (forall m :: m in v.files ==> u.files[m] == v.files[m])
    && (forall m, s :: m in v.files && SlotOk(s) && !IsTable(s) ==> DataAt(u, m, s) == DataAt(v, m, s))
  }

  /** A volume stays sound when a sound file joins it, whatever directory will name the file. */
  lemma JoinedOk(g: Geometry, v: Vol, u: Vol, home: map<nat, nat>, torn: set<nat>, t: nat, p: nat)
    requires GeometryOk(g) && |v.d| == |u.d| == g.blocks && InodesOk(v) && InodesOk(u)
    requires VolOk(g, v, home, torn) && Joined(v, u, t)
    requires 1 <= t <= g.inodes && FreeInodes(g, u.d) == FreeInodes(g, v.d) - {t}
    requires u.files[t].size <= MAX_BYTES && TailZero(u, t)
    requires forall m :: m in u.files ==> InodeAt(g, u.d, m) == u.files[m]
    requires IsDirectory(u.files[t]) ==> DirOk(u, home[t := p], t)
    ensures VolOk(g, u, home[t := p], torn - {t})
    ensures forall m :: m in v.files ==> v.files[m].size <= MAX_BYTES && Content(u, m) == Content(v, m)
  {
    hide InodeAt, FreeInodes, TailZero, Content, Live, Entries, DirTiled, DataAt;
    forall m | m in v.files ensures Content(u, m) == Content(v, m) && (TailZero(v, m) ==> TailZero(u, m)) {
      SameContent(v, u, m);
    }
    forall m | m in u.files && IsDirectory(u.files[m]) ensures DirOk(u, home[t := p], m) {
      if m != t {
        assert DirOk(v, home, m);
        ListGrow(v.files, u.files, home, m, Live(Entries(Content(v, m))), t, p);
      }
    }
  }

  /** Naming the new file: the directory's map gains exactly that name. */
  lemma NamedOk(g: Geometry, v: Vol, u: Vol, w: Vol, home: map<nat, nat>, torn: set<nat>, t: nat, p: nat, name: Name)
    requires GeometryOk(g) && |u.d| == |w.d| == g.blocks && InodesOk(v) && InodesOk(u) && InodesOk(w)
    requires VolOk(g, u, home[t := p], torn) && t !in v.files && t in u.files && t != 0
    requires forall m :: m in v.files ==> m in u.files && u.files[m].mode == v.files[m].mode
    requires p in v.files && IsDirectory(v.files[p]) && DirOk(v, home, p)
    requires p in u.files && u.files[p].size == v.files[p].size && Content(u, p) == Content(v, p)
    requires !IsDot(name) && name !in DirMap(v, p)
    requires 1 <= p <= g.inodes && Added(g, u, w, p, name, t)
    ensures VolOk(g, w, home[t := p], torn)
    ensures DirMap(w, p) == DirMap(v, p)[name := t]
  {
    hide InodeAt, FreeInodes, TailZero, Content, Live, Entries, DirTiled, DataAt, NameMap, AddRecord, IsDot;
    var es := Entries(Content(v, p));
    var ls := Live(es);
    var k := LiveAdd(es, v.files[p].size, name, t);
    ListInsert(v.files, w.files, home, p, ls, k, name, t);
    InsertLink(ls, k, Link(name, t));
    VolOkBut(g, u, w, home[t := p], torn, torn, p);
  }

  // ---- the death of a file ----

  ghost function Drop(v: Vol, d: Disk, t: nat): Vol {
    Vol(d, v.files - {t}, map b | b in v.own && v.own[b].ino != t :: v.own[b])
  }

  /** A block is in `Reach` exactly when some slot of the tree holds it. */
  lemma ReachIsTree(g: Geometry, v: Vol, t: nat, b: nat)
    requires TreeOk(g, v) && t in v.files
    ensures b in Reach(v, t) <==> b != 0 && exists s :: SlotOk(s) && BlockOf(v, t, s) == b
  {
  }

  lemma DropOk(g: Geometry, v: Vol, d: Disk, t: nat)
    requires GeometryOk(g) && |v.d| == |d| == g.blocks && TreeOk(g, v)
    requires forall b :: b in v.own ==> d[b] == v.d[b]
    ensures TreeOk(g, Drop(v, d, t))
    ensures forall m, s :: m in v.files && m != t && SlotOk(s) && !IsTable(s) ==> DataAt(Drop(v, d, t), m, s) == DataAt(v, m, s)
  {
    var x := v.(d := d);
    OwnedBlocksFixData(g, v, d);
    var w := Drop(v, d, t);
    assert forall m, s :: m in w.files && SlotOk(s) ==> BlockOf(w, m, s) == BlockOf(x, m, s);
  }

  /** Dropping file `t` leaves the trees of all others as they were. */
  lemma DropReach(v: Vol, w: Vol, x: Vol, t: nat)
    requires w == Drop(v, w.d, t) && x.own == w.own
    ensures forall m :: m != t ==> Reach(x, m) == Reach(v, m)
  {
  }

  /** A number no file has owns nothing. */
  lemma NoReach(g: Geometry, v: Vol, t: nat)
    requires TreeOk(g, v) && t !in v.files
    ensures Reach(v, t) == {}
  {
    hide BlockOf;
  }

  /**
   Unlinking: record `k` of directory `p` is freed (`v` to `u`), then the file behind it is
   dropped (`u` to `w`). The map loses exactly that name, and no name dangles.
   */
  lemma UnlinkedOk(g: Geometry, v: Vol, u: Vol, w: Vol, home: map<nat, nat>, torn: set<nat>, p: nat, k: nat, t: nat)
    requires GeometryOk(g) && |v.d| == |u.d| == |w.d| == g.blocks && InodesOk(v) && InodesOk(u) && InodesOk(w)
    requires VolOk(g, v, home, torn) && p in v.files && IsDirectory(v.files[p]) && DirOk(v, home, p)
    requires t in v.files && !IsDirectory(v.files[t]) && t != 0
    requires k < |Entries(Content(v, p))| && Entries(Content(v, p))[k].ino == t
    requires SameBut(v, u, p) && u.files == v.files
    requires DirTiled(Content(u, p)) && Entries(Content(u, p)) == FreeRecord(Entries(Content(v, p)), k) && TailZero(u, p)
    requires w.files == u.files - {t}
    requires forall m, s :: m in w.files && SlotOk(s) && !IsTable(s) ==> DataAt(w, m, s) == DataAt(u, m, s)
    requires FreeInodes(g, w.d) == FreeInodes(g, v.d) + {t}
    requires forall m :: 1 <= m <= g.inodes ==> InodeAt(g, w.d, m) == InodeAt(g, v.d, m)
    ensures VolOk(g, w, home, torn - {t}) && p in w.files && w.files[p].size <= MAX_BYTES && DirTiled(Content(w, p))
    ensures DirMap(w, p) == DirMap(v, p) - {Entries(Content(v, p))[k].name}
    ensures forall m :: m in w.files && m != p ==> v.files[m].size <= MAX_BYTES && Content(w, m) == Content(v, m)
  {
    hide InodeAt, FreeInodes, TailZero, Content, Entries, DirTiled, DataAt, NameMap, Live, FreeRecord;
    var es := Entries(Content(v, p));
    var ls := Live(es);
    var q := LiveFree(es, k);
    ListRemove(v.files, home, p, ls, q);
    assert LinkOk(v.files, home, p, ls[q]);
    RemoveLink(ls, q);
    SameContent(u, w, p);
    forall m | m in w.files && m != p ensures
      && Content(w, m) == Content(v, m) && (TailZero(v, m) ==> TailZero(w, m))
    {
      SameButContent(v, u, p, m);
      SameContent(u, w, m);
    }
    forall m | m in w.files && IsDirectory(w.files[m]) ensures DirOk(w, home, m) {
      if m != p {
        assert DirOk(v, home, m);
        ListForget(v.files, home, m, Live(Entries(Content(v, m))), t, p);
      }
    }
  }

  /** Renaming record `k`: the map moves the inode to the new name. */
  lemma RenamedOk(g: Geometry, v: Vol, w: Vol, home: map<nat, nat>, torn: set<nat>, p: nat, k: nat, name: Name)
    requires GeometryOk(g) && |v.d| == |w.d| == g.blocks && InodesOk(v) && InodesOk(w)
    requires VolOk(g, v, home, torn) && p in v.files && IsDirectory(v.files[p]) && DirOk(v, home, p)
    requires k < |Entries(Content(v, p))| && Entries(Content(v, p))[k].ino != 0
    requires !IsDot(Entries(Content(v, p))[k].name) && !IsDot(name) && name !in DirMap(v, p)
    requires SameBut(v, w, p) && w.files == v.files
    requires DirTiled(Content(w, p)) && Entries(Content(w, p)) == RenameRecord(Entries(Content(v, p)), k, name) && TailZero(w, p)
    requires FreeInodes(g, w.d) == FreeInodes(g, v.d)
    requires forall m :: 1 <= m <= g.inodes ==> InodeAt(g, w.d, m) == InodeAt(g, v.d, m)
    ensures VolOk(g, w, home, torn)
    ensures var e := Entries(Content(v, p))[k]; DirMap(w, p) == (DirMap(v, p) - {e.name})[name := e.ino]
  {
    hide InodeAt, FreeInodes, TailZero, Content, Entries, DirTiled, DataAt, NameMap, Live, RenameRecord, IsDot;
    var es := Entries(Content(v, p));
    var q := LiveRename(es, k, name);
    ListRename(v.files, home, p, Live(es), q, name);
    RenameLink(Live(es), q, name);
    VolOkBut(g, v, w, home, torn, torn, p);
  }

  // ---- looking up by inode ----

  /** A name other than a dot is the only record of its inode in its directory. */
  lemma OnlyRecord(files: map<nat, Inode>, home: map<nat, nat>, n: nat, es: seq<Rec>, i: nat, j: nat)
    requires ListOk(files, home, n, Live(es)) && i < |es| && j < |es| && es[i].ino == es[j].ino != 0
    requires !IsDot(es[i].name)
    ensures i == j
  {
    if i < j {
      var a, b := LivePairOf(es, i, j);
    } else if j < i {
      var a, b := LivePairOf(es, j, i);
    }
  }

  /** Two live records are two live links. */
  lemma LivePairOf(es: seq<Rec>, i: nat, j: nat) returns (a: nat, b: nat)
    requires i < j < |es| && es[i].ino != 0 && es[j].ino != 0
    ensures a < b < |Live(es)|
    ensures Live(es)[a] == Link(es[i].name, es[i].ino) && Live(es)[b] == Link(es[j].name, es[j].ino)
  {
    hide Live;
    LiveReplace(es, j, [es[j]]);
    LiveReplace(es[..j], i, [es[i]]);
    LiveOne(es[i]);
    LiveOne(es[j]);
    assert es[..j][i] == es[i];
    a, b := |Live(es[..j][..i])|, |Live(es[..j])|;
  }

  /** The record behind a name of the map. */
  lemma {:induction false} RecordOf(es: seq<Rec>, name: Name) returns (j: nat)
    requires name in NameMap(Live(es))
    ensures j < |es| && es[j].name == name && es[j].ino != 0 && es[j].ino == NameMap(Live(es))[name]
  {
    if es[0].ino != 0 && es[0].name == name {
      j := 0;
    } else {
      if es[0].ino != 0 {
        assert Live(es)[1..] == Live(es[1..]);
      }
      j := RecordOf(es[1..], name);
      j := j + 1;
    }
  }

  // ---- collecting a tree ----

  /** The order in which `collect_blocks` visits the slots of a tree. */
  function Rank(s: Slot): (r: nat)
    requires SlotOk(s)
    ensures r < ALL_SLOTS
  {
    match s
    case Direct(i) => i
    case Single(k) => 12 + k
    case SingleTable => 268
    case Double(k, j) => 269 + 257 * k + j
    case Mid(k) => 269 + 257 * k + 256
    case DoubleTable => 269 + 257 * 256
  }

  const ALL_SLOTS: nat := 270 + 257 * 256

  lemma RankInjective(s: Slot, t: Slot)
    requires SlotOk(s) && SlotOk(t) && Rank(s) == Rank(t)
    ensures s == t
  {
  }

  ghost predicate NoDuplicates(out: seq<nat>) {
    forall i, j :: 0 <= i < j < |out| ==> out[i] != out[j]
  }

  ghost predicate Holds(v: Vol, t: nat, r: nat, x: nat)
    requires t in v.files && |v.files[t].blocks| == 15
  {
    x != 0 && exists s :: SlotOk(s) && Rank(s) < r && BlockOf(v, t, s) == x
  }

  /** `out` lists, each once, the blocks in the slots visited before `r`. */
  ghost predicate Collected(v: Vol, t: nat, out: seq<nat>, r: nat)
    requires t in v.files && |v.files[t].blocks| == 15
  {
    NoDuplicates(out) && forall x :: x in out <==> Holds(v, t, r, x)
  }

  lemma CollectNone(v: Vol, t: nat)
    requires t in v.files && |v.files[t].blocks| == 15
    ensures Collected(v, t, [], 0)
  {
  }

  lemma CollectStep(g: Geometry, v: Vol, t: nat, out: seq<nat>, s: Slot)
    requires TreeOk(g, v) && t in v.files && SlotOk(s) && Collected(v, t, out, Rank(s))
    ensures Collected(v, t, if BlockOf(v, t, s) == 0 then out else out + [BlockOf(v, t, s)], Rank(s) + 1)
  {
    hide Rank, BlockOf, Exact;
    var b := BlockOf(v, t, s);
    forall x ensures Holds(v, t, Rank(s) + 1, x) <==> Holds(v, t, Rank(s), x) || (x != 0 && x == b) {
      if Holds(v, t, Rank(s) + 1, x) {
        var q :| SlotOk(q) && Rank(q) < Rank(s) + 1 && BlockOf(v, t, q) == x;
        if Rank(q) == Rank(s) { RankInjective(q, s); }
      }
    }
    if b != 0 {
      assert !Holds(v, t, Rank(s), b);
    }
  }

  /** A run of empty slots adds nothing. */
  lemma CollectSkip(v: Vol, t: nat, out: seq<nat>, r: nat, r': nat)
    requires t in v.files && |v.files[t].blocks| == 15 && r <= r' && Collected(v, t, out, r)
    requires forall s :: SlotOk(s) && r <= Rank(s) < r' ==> BlockOf(v, t, s) == 0
    ensures Collected(v, t, out, r')
  {
    hide Rank, BlockOf;
    forall x ensures Holds(v, t, r', x) <==> Holds(v, t, r, x) {
      if Holds(v, t, r', x) {
        var q :| SlotOk(q) && Rank(q) < r' && BlockOf(v, t, q) == x;
        assert Rank(q) < r;
      }
    }
  }

  /** A finished walk has listed the whole tree. */
  lemma CollectAll(g: Geometry, v: Vol, t: nat, out: seq<nat>)
    requires TreeOk(g, v) && t in v.files && Collected(v, t, out, ALL_SLOTS)
    ensures forall b :: b in out <==> b in Reach(v, t)
  {
    hide Rank, Exact, Owned, BlockOf;
    forall b ensures b in out <==> b in Reach(v, t) {
      ReachIsTree(g, v, t, b);
      if b in Reach(v, t) {
        var s :| SlotOk(s) && BlockOf(v, t, s) == b;
        assert Rank(s) < ALL_SLOTS;
      }
    }
  }

  // ---- what operations leave alone ----

  /** File `m` has the same inode and the same bytes. */
  ghost predicate Unchanged(v: Vol, w: Vol, m: nat)
    requires InodesOk(v) && InodesOk(w) && m in v.files
  {
    && m in w.files && w.files[m] == v.files[m]
    && (v.files[m].size <= MAX_BYTES ==> Content(w, m) == Content(v, m))
  }

  /** Every file outside `ex` is unchanged. */
  ghost predicate OthersKept(v: Vol, w: Vol, ex: set<nat>)
    requires InodesOk(v) && InodesOk(w)
  {
    forall m :: m in v.files && m !in ex ==> Unchanged(v, w, m)
  }

  /** Parts of soundness that operations start from. */
  lemma PartsOf(g: Geometry, v: Vol, home: map<nat, nat>, torn: set<nat>, n: nat)
    requires GeometryOk(g) && |v.d| == g.blocks && InodesOk(v) && VolOk(g, v, home, torn) && n in v.files
    ensures 1 <= n <= g.inodes && n !in FreeInodes(g, v.d) && v.files[n].size <= MAX_BYTES && InodeAt(g, v.d, n) == v.files[n]
    ensures IsDirectory(v.files[n]) ==> DirOk(v, home, n) && TailZero(v, n) && DirTiled(Content(v, n))
    ensures n !in torn ==> TailZero(v, n)
  {
  }

  /** A free inode number belongs to no file. */
  lemma FreshNumber(g: Geometry, v: Vol, home: map<nat, nat>, torn: set<nat>, t: nat)
    requires GeometryOk(g) && |v.d| == g.blocks && InodesOk(v) && VolOk(g, v, home, torn) && t in FreeInodes(g, v.d)
    ensures 1 <= t <= g.inodes && t !in v.files
  {
  }

  /** Same inodes, same data, same inode area: as sound as before. */
  lemma VolOkSame(g: Geometry, v: Vol, w: Vol, home: map<nat, nat>, torn: set<nat>)
    requires GeometryOk(g) && |v.d| == |w.d| == g.blocks && InodesOk(v) && InodesOk(w)
    requires VolOk(g, v, home, torn) && w.files == v.files && SameData(v, w)
    requires FreeInodes(g, w.d) <= FreeInodes(g, v.d)
    requires forall m :: 1 <= m <= g.inodes ==> InodeAt(g, w.d, m) == InodeAt(g, v.d, m)
    ensures VolOk(g, w, home, torn)
    ensures forall m :: m in v.files ==> Unchanged(v, w, m)
  {
    hide InodeAt, FreeInodes, TailZero, Content, Live, Entries, DirTiled, DataAt;
    forall m | m in v.files ensures Content(w, m) == Content(v, m) && (TailZero(v, m) ==> TailZero(w, m)) {
      SameContent(v, w, m);
    }
    forall m | m in w.files && IsDirectory(w.files[m]) ensures DirOk(w, home, m) {
      assert DirOk(v, home, m);
    }
  }

  /** An inode number is taken (`v` to `w`, inodes and data as before) and its empty file stored (`w` to `u`). */
  lemma BornEmpty(g: Geometry, v: Vol, w: Vol, u: Vol, home: map<nat, nat>, torn: set<nat>, t: nat, p: nat, ino: Inode)
    requires GeometryOk(g) && |v.d| == |w.d| == |u.d| == g.blocks && InodesOk(v) && InodesOk(w) && InodesOk(u)
    requires VolOk(g, v, home, torn) && t in FreeInodes(g, v.d) && InodeOk(ino) && NoPointers(ino) && ino.size == 0 && !IsDirectory(ino)
    requires forall b :: 0 <= b < g.blocks && b != 1 && b != 2 && b != g.inodeBitmap ==> w.d[b] == v.d[b]
    requires FreeInodes(g, w.d) == FreeInodes(g, v.d) - {t}
    requires w.files == v.files[t := ino]
    requires forall m, s :: m in v.files && SlotOk(s) && !IsTable(s) ==> DataAt(w, m, s) == DataAt(v, m, s)
    requires forall s :: SlotOk(s) ==> BlockOf(w, t, s) == 0
    requires 1 <= t <= g.inodes && u.d == PutInode(g, w.d, t, ino) && u.files == w.files
    requires FreeInodes(g, u.d) == FreeInodes(g, w.d)
    requires forall m, s :: m in w.files && SlotOk(s) && !IsTable(s) ==> DataAt(u, m, s) == DataAt(w, m, s)
    ensures Joined(v, u, t) && VolOk(g, u, home[t := p], torn - {t})
    ensures forall m :: m in v.files ==> v.files[m].size <= MAX_BYTES && Content(u, m) == Content(v, m)
  {
    hide InodeAt, FreeInodes, TailZero, Content, DirOk, DataAt, BlockOf, PutInode;
    FreshNumber(g, v, home, torn, t);
    InodeTableSame(g, v.d, w.d);
    PutInodeAt(g, w.d, t, ino);
    EmptyTail(w, u, t);
    JoinedOk(g, v, u, home, torn, t, p);
  }

  lemma EmptyTail(w: Vol, u: Vol, t: nat)
    requires t in w.files && t in u.files && |w.files[t].blocks| == |u.files[t].blocks| == 15
    requires forall s :: SlotOk(s) ==> BlockOf(w, t, s) == 0
    requires forall s :: SlotOk(s) && !IsTable(s) ==> DataAt(u, t, s) == DataAt(w, t, s)
    ensures TailZero(u, t)
  {
    hide SlotOf, BlockOf;
    forall pos: nat | pos < MAX_BYTES ensures ByteAt(u, t, pos) == 0 {
      assert DataAt(u, t, SlotOf(pos / BLOCK)) == DataAt(w, t, SlotOf(pos / BLOCK)) == ZeroBlock();
    }
  }

  lemma InodeTableSame(g: Geometry, d: Disk, e: Disk)
    requires GeometryOk(g) && |d| == |e| == g.blocks
    requires forall b :: 0 <= b < g.blocks && InTable(g, b) ==> e[b] == d[b]
    ensures forall m :: 1 <= m <= g.inodes ==> InodeAt(g, e, m) == InodeAt(g, d, m)
  {
    hide DecodeInode;
    assert forall m :: 1 <= m <= g.inodes ==> InTable(g, RecordBlock(g, m));
  }

  lemma JoinedUnchanged(v: Vol, u: Vol, t: nat)
    requires InodesOk(v) && InodesOk(u) && Joined(v, u, t)
    ensures forall m :: m in v.files ==> Unchanged(v, u, m)
  {
    hide DataAt, Content;
    forall m | m in v.files && v.files[m].size <= MAX_BYTES ensures Content(u, m) == Content(v, m) {
      SameContent(v, u, m);
    }
  }

  lemma JoinedModes(v: Vol, u: Vol, t: nat)
    requires InodesOk(v) && InodesOk(u) && Joined(v, u, t)
    ensures t !in v.files && t in u.files && forall m :: m in v.files ==> m in u.files && u.files[m].mode == v.files[m].mode
  {
  }

  lemma SameDataSameBut(v: Vol, w: Vol, n: nat)
    requires InodesOk(v) && InodesOk(w) && w.files == v.files && SameData(v, w)
    ensures SameBut(v, w, n)
  {
  }

  lemma AddedSame(g: Geometry, v: Vol, w: Vol, n: nat, name: Name, t: nat)
    requires GeometryOk(g) && |v.d| == |w.d| == g.blocks && 1 <= n <= g.inodes
    requires InodesOk(v) && InodesOk(w) && n in v.files && v.files[n].size <= MAX_BYTES && DirTiled(Content(v, n))
    requires Added(g, v, w, n, name, t)
    ensures SameBut(v, w, n) && w.files[n].mode == v.files[n].mode && FreeInodes(g, w.d) == FreeInodes(g, v.d)
  {
  }

  lemma NumberFits(g: Geometry, v: Vol, home: map<nat, nat>, torn: set<nat>, t: nat)
    requires GeometryOk(g) && |v.d| == g.blocks && InodesOk(v) && VolOk(g, v, home, torn) && t in v.files
    ensures 0 < t < 0x1_0000_0000
  {
  }

  /** Files that survive a join (`v` to `u`) and an operation on `p` (`u` to `w`) unchanged. */
  lemma KeptThrough(v: Vol, u: Vol, w: Vol, p: nat)
    requires InodesOk(v) && InodesOk(u) && InodesOk(w) && SameBut(u, w, p)
    requires forall m :: m in v.files ==> Unchanged(v, u, m)
    ensures OthersKept(v, w, {p})
    ensures p in v.files && p in u.files && Unchanged(u, w, p) ==> Unchanged(v, w, p)
  {
    hide DataAt, Content;
    forall m | m in v.files && m != p ensures Unchanged(v, w, m) {
      if v.files[m].size <= MAX_BYTES {
        SameButContent(u, w, p, m);
      }
    }
  }

  lemma NothingChanged(v: Vol, p: nat)
    requires InodesOk(v)
    ensures OthersKept(v, v, {}) && OthersKept(v, v, {p}) && (p in v.files ==> Unchanged(v, v, p))
  {
    hide Content;
  }

  /** A name of a sound directory leads to a live inode other than the directory itself. */
  lemma NameLeads(v: Vol, home: map<nat, nat>, p: nat, name: Name)
    requires InodesOk(v) && p in v.files && DirOk(v, home, p) && name in DirMap(v, p)
    ensures DirMap(v, p)[name] in v.files
    ensures !IsDot(name) ==> DirMap(v, p)[name] in home && home[DirMap(v, p)[name]] == p
  {
    hide NameMap, Live, Entries, Content, DirTiled, IsDot;
    var ls := Live(Entries(Content(v, p)));
    assert Has(ls, name);
    var i :| 0 <= i < |ls| && ls[i].name == name;
    NameMapAt(ls, i);
    assert LinkOk(v.files, home, p, ls[i]);
  }

  /** A write to file `t` leaves every other file, and so every directory, as it was. */
  lemma WroteKept(v: Vol, w: Vol, p: nat, t: nat)
    requires InodesOk(v) && InodesOk(w) && p in v.files && v.files[p].size <= MAX_BYTES && DirTiled(Content(v, p))
    requires SameBut(v, w, t) && t != p
    ensures OthersKept(v, w, {t})
    ensures p in w.files && w.files[p] == v.files[p] && DirTiled(Content(w, p)) && DirMap(w, p) == DirMap(v, p)
  {
    hide DataAt, Content, DirTiled, DirMap;
    forall m | m in v.files && m != t ensures Unchanged(v, w, m) {
      if v.files[m].size <= MAX_BYTES { SameButContent(v, w, t, m); }
    }
    assert Unchanged(v, w, p);
    DirMapOfContent(v, w, p);
  }

  lemma DirMapOfContent(v: Vol, w: Vol, p: nat)
    requires p in v.files && p in w.files && |v.files[p].blocks| == |w.files[p].blocks| == 15
    requires v.files[p].size == w.files[p].size <= MAX_BYTES && DirTiled(Content(v, p)) && Content(w, p) == Content(v, p)
    ensures DirMap(w, p) == DirMap(v, p)
  {
  }

  /** Two operations in a row keep what both keep. */
  lemma KeptTwice(v: Vol, u: Vol, w: Vol, p: nat, t: nat)
    requires InodesOk(v) && InodesOk(u) && InodesOk(w)
    requires OthersKept(v, u, {p}) && OthersKept(u, w, {t}) && t !in v.files
    ensures OthersKept(v, w, {p})
  {
    hide Content;
    forall m | m in v.files && m != p ensures Unchanged(v, w, m) {
      assert Unchanged(v, u, m) && Unchanged(u, w, m);
    }
  }

  // ---- a new directory ----

  /** The first block of a new directory `t` in `p`: `.` and `..`. */
  function DotsBlock(t: nat, p: nat): Block
    requires t < 0x1_0000_0000 && p < 0x1_0000_0000
  {
    WriteEntry(WriteEntry(ZeroBlock(), 0, t, [46], 12), 12, p, [46, 46], 1012)
  }

  lemma DotsRecs(t: nat, p: nat)
    requires 0 < t < 0x1_0000_0000 && 0 < p < 0x1_0000_0000
    ensures Tiles(DotsBlock(t, p), 0, BLOCK)
    ensures Recs(DotsBlock(t, p), 0, BLOCK, 0) == [Rec(t, [46], 12, 0), Rec(p, [46, 46], 1012, 12)]
  {
    hide Tiles, Recs, WriteEntry;
    var b1 := WriteEntry(ZeroBlock(), 0, t, [46], 12);
    var b2 := WriteEntry(b1, 12, p, [46, 46], 1012);
    WrittenEntry(ZeroBlock(), 0, t, [46], 12, 0);
    WrittenEntry(b1, 12, p, [46, 46], 1012, 0);
    TilesLocal(b1, b2, 0, 12, 0);
    TilesJoin(b2, 0, 12, BLOCK, 0);
  }

  /** The dots of a new directory are two sound links. */
  lemma DotsOk(v: Vol, home: map<nat, nat>, t: nat, p: nat)
    requires t in v.files && p in v.files && t != p && |v.files[t].blocks| == 15 && v.files[t].size == BLOCK
    requires IsDirectory(v.files[t]) && IsDirectory(v.files[p]) && 0 < t < 0x1_0000_0000 && 0 < p < 0x1_0000_0000
    requires DataAt(v, t, Direct(0)) == DotsBlock(t, p)
    ensures DirOk(v, home, t)
    ensures DirMap(v, t) == map[[46] := t, [46, 46] := p]
  {
    hide Tiles, Recs, DotsBlock, DataAt, Content, Live;
    ChunkIsData(v, t, 0);
    DotsRecs(t, p);
    var c := Content(v, t);
    assert DirTiled(c);
    assert EntriesTo(c, 1) == EntriesTo(c, 0) + Recs(Chunk(c, 0), 0, BLOCK, 0);
    var es := Entries(c);
    assert es == [Rec(t, [46], 12, 0), Rec(p, [46, 46], 1012, 12)];
    LivePair(es);
    LiveOne(es[0]);
    LiveOne(es[1]);
    var ls := Live(es);
    assert ls == [Link([46], t), Link([46, 46], p)];
    assert LinkOk(v.files, home, t, ls[0]) && LinkOk(v.files, home, t, ls[1]);
    NameMapIs(ls, map[[46] := t, [46, 46] := p]) by {
      assert Has(ls, [46]) && Has(ls, [46, 46]) by { assert ls[0].name == [46] && ls[1].name == [46, 46]; }
    }
  }

  /** Number `t` was taken for a file without blocks (`v` to `w`), and nothing else changed. */
  ghost predicate Numbered(g: Geometry, v: Vol, w: Vol, t: nat)
    requires GeometryOk(g) && |v.d| == |w.d| == g.blocks && InodesOk(v) && InodesOk(w)
  {
    && 1 <= t <= g.inodes && t in FreeInodes(g, v.d) && FreeInodes(g, w.d) == FreeInodes(g, v.d) - {t}
    && (forall i :: 0 <= i < g.blocks && i != 1 && i != 2 && i != g.inodeBitmap ==> w.d[i] == v.d[i])
    && t in w.files && w.files == v.files[t := w.files[t]]
    && (forall m, s :: m in v.files && SlotOk(s) && !IsTable(s) ==> DataAt(w, m, s) == DataAt(v, m, s))
    && (forall s :: SlotOk(s) ==> BlockOf(w, t, s) == 0)
  }

  /**
   A directory is born: its number is taken and its inode known (`v` to `w`), its block is
   allocated (`w` to `x`), the dots are written (`x` to `y`), the inode is stored (`y` to `u`).
   */
  lemma BornDirectory(g: Geometry, v: Vol, w: Vol, x: Vol, y: Vol, u: Vol, home: map<nat, nat>, torn: set<nat>, t: nat, p: nat, b: nat)
    requires GeometryOk(g) && |v.d| == |w.d| == |x.d| == |y.d| == |u.d| == g.blocks
    requires InodesOk(v) && InodesOk(w) && TreeOk(g, x) && InodesOk(u)
    requires VolOk(g, v, home, torn) && Numbered(g, v, w, t) && p in v.files && IsDirectory(v.files[p])
    requires Extends(g, w, x, t) && b == BlockOf(x, t, Direct(0)) && 0 < b < g.blocks && !IsMeta(g, b)
    requires 0 < t < 0x1_0000_0000 && 0 < p < 0x1_0000_0000
    requires y == x.(d := x.d[b := DotsBlock(t, p)])
    requires t in u.files && u.files == y.files[t := u.files[t]] && IsDirectory(u.files[t]) && u.files[t].size == BLOCK
    requires u.d == PutInode(g, y.d, t, u.files[t]) && FreeInodes(g, u.d) == FreeInodes(g, y.d)
    requires forall m, s :: m in y.files && SlotOk(s) && !IsTable(s) ==> DataAt(u, m, s) == DataAt(y, m, s)
    ensures Joined(v, u, t) && VolOk(g, u, home[t := p], torn - {t})
    ensures DirOk(u, home[t := p], t) && DirMap(u, t) == map[[46] := t, [46, 46] := p]
  {
    hide InodeAt, FreeInodes, TailZero, Content, DirOk, DataAt, BlockOf, PutInode, Owned, Exact, DotsBlock, DirMap, IsMeta, Extends, VolOk, Joined;
    FreshNumber(g, v, home, torn, t);
    BornInodes(g, v, w, x, y, u, home, torn, t, b, DotsBlock(t, p));
    BornData(g, v, w, x, y, u, t, b, DotsBlock(t, p));
    OneBlockTail(w, u, t);
    JoinedModes(v, u, t);
    DotsOk(u, home[t := p], t, p);
    JoinedOk(g, v, u, home, torn, t, p);
  }

  /** The data of a directory being born: its own block, and nobody else's changed. */
  lemma BornData(g: Geometry, v: Vol, w: Vol, x: Vol, y: Vol, u: Vol, t: nat, b: nat, blk: Block)
    requires GeometryOk(g) && |w.d| == |x.d| == g.blocks && InodesOk(v) && InodesOk(w) && TreeOk(g, x) && InodesOk(u)
    requires t !in v.files && t in w.files && w.files == v.files[t := w.files[t]]
    requires forall m, s :: m in v.files && SlotOk(s) && !IsTable(s) ==> DataAt(w, m, s) == DataAt(v, m, s)
    requires Extends(g, w, x, t) && b == BlockOf(x, t, Direct(0)) && 0 < b < g.blocks && y == x.(d := x.d[b := blk])
    requires t in u.files && u.files == y.files[t := u.files[t]]
    requires forall m, s :: m in y.files && SlotOk(s) && !IsTable(s) ==> DataAt(u, m, s) == DataAt(y, m, s)
    ensures Joined(v, u, t) && DataAt(u, t, Direct(0)) == blk
    ensures forall s :: SlotOk(s) && !IsTable(s) && s != Direct(0) ==> DataAt(u, t, s) == DataAt(w, t, s)
  {
    hide DataAt, BlockOf, Owned, Exact, SpaceKept, SameInodeArea, Grown, JoinedOnly;
    DataWrite(g, x, t, Direct(0), blk);
  }

  lemma BornInodes(g: Geometry, v: Vol, w: Vol, x: Vol, y: Vol, u: Vol, home: map<nat, nat>, torn: set<nat>, t: nat, b: nat, blk: Block)
    requires GeometryOk(g) && |v.d| == |w.d| == |x.d| == |y.d| == |u.d| == g.blocks && InodesOk(v) && InodesOk(u)
    requires VolOk(g, v, home, torn) && 1 <= t <= g.inodes && t in u.files
    requires forall i :: 0 <= i < g.blocks && i != 1 && i != 2 && i != g.inodeBitmap ==> w.d[i] == v.d[i]
    requires Extends(g, w, x, t) && 0 < b < g.blocks && !IsMeta(g, b) && y == x.(d := x.d[b := blk])
    requires t in w.files && w.files == v.files[t := w.files[t]] && u.files == y.files[t := u.files[t]]
    requires u.d == PutInode(g, y.d, t, u.files[t]) && FreeInodes(g, u.d) == FreeInodes(g, y.d)
    ensures FreeInodes(g, u.d) == FreeInodes(g, w.d)
    ensures forall m :: m in u.files ==> 1 <= m <= g.inodes && InodeAt(g, u.d, m) == u.files[m]
  {
    hide InodeAt, FreeInodes, TailsOk, NamesOk, PutInode, IsMeta, SpaceKept, SameData, Grown;
    InodeTableSame(g, v.d, w.d);
    SameInodeAreaSame(g, w.d, x.d);
    NotMetaWrite(g, x.d, b, blk);
    SameInodeAreaSame(g, x.d, y.d);
    PutInodeAt(g, y.d, t, u.files[t]);
  }

  lemma OneBlockTail(w: Vol, u: Vol, t: nat)
    requires t in w.files && t in u.files && |w.files[t].blocks| == |u.files[t].blocks| == 15 && u.files[t].size == BLOCK
    requires forall s :: SlotOk(s) ==> BlockOf(w, t, s) == 0
    requires forall s :: SlotOk(s) && !IsTable(s) && s != Direct(0) ==> DataAt(u, t, s) == DataAt(w, t, s)
    ensures TailZero(u, t)
  {
    hide BlockOf;
    forall pos: nat | BLOCK <= pos < MAX_BYTES ensures ByteAt(u, t, pos) == 0 {
      assert SlotOf(pos / BLOCK) != Direct(0);
      assert DataAt(u, t, SlotOf(pos / BLOCK)) == DataAt(w, t, SlotOf(pos / BLOCK)) == ZeroBlock();
    }
  }

  lemma AllUnchanged(v: Vol, w: Vol)
    requires InodesOk(v) && w == v
    ensures forall m :: m in v.files ==> Unchanged(v, w, m)
  {
    hide Content;
  }

  lemma AllKept(v: Vol, w: Vol, p: nat)
    requires InodesOk(v) && InodesOk(w) && forall m :: m in v.files ==> Unchanged(v, w, m)
    requires p in v.files && v.files[p].size <= MAX_BYTES && DirTiled(Content(v, p))
    ensures OthersKept(v, w, {p}) && p in w.files && w.files[p] == v.files[p]
    ensures DirTiled(Content(w, p)) && DirMap(w, p) == DirMap(v, p)
  {
    hide Content;
    assert Unchanged(v, w, p);
    DirMapOfContent(v, w, p);
  }

  lemma UnchangedMap(v: Vol, w: Vol, p: nat)
    requires InodesOk(v) && InodesOk(w) && p in v.files && Unchanged(v, w, p)
    requires v.files[p].size <= MAX_BYTES && DirTiled(Content(v, p))
    ensures w.files[p] == v.files[p] && DirTiled(Content(w, p)) && DirMap(w, p) == DirMap(v, p)
  {
    hide Content;
    DirMapOfContent(v, w, p);
  }

  // ---- editing one record in place ----

  /** A data-area edit of directory `n` that left its records as `es`. */
  ghost predicate Edited(g: Geometry, v: Vol, w: Vol, n: nat, es: seq<Rec>)
    requires GeometryOk(g) && |v.d| == |w.d| == g.blocks && InodesOk(v) && InodesOk(w) && n in v.files && v.files[n].size <= MAX_BYTES
  {
    && w.files == v.files && w.own == v.own && SameBut(v, w, n)
    && DirTiled(Content(w, n)) && Entries(Content(w, n)) == es && TailZero(w, n)
    && FreeInodes(g, w.d) == FreeInodes(g, v.d)
    && (forall m :: 1 <= m <= g.inodes ==> InodeAt(g, w.d, m) == InodeAt(g, v.d, m))
    && w.d[1] == v.d[1] && w.d[g.blockBitmap] == v.d[g.blockBitmap] && w.d[g.inodeBitmap] == v.d[g.inodeBitmap]
  }

  /** Replacing record `k` by `e`, given the block that does it. */
  lemma EditRecord(g: Geometry, v: Vol, n: nat, c: seq<byte>, k: nat, b: nat, p: nat, q: nat, x: Block, e: Rec)
    requires GeometryOk(g) && |v.d| == g.blocks && TreeOk(g, v) && n in v.files && v.files[n].size <= MAX_BYTES
    requires c == Content(v, n) && DirTiled(c) && TailZero(v, n) && k < |Entries(c)|
    requires Entries(c)[k].off == BLOCK * b + p && Entries(c)[k].len == q - p && p < BLOCK && q <= BLOCK && b < |c| / BLOCK
    requires forall i :: 0 <= i < BLOCK && !(p <= i < q) ==> x[i] == Chunk(c, b)[i]
    requires Tiles(x, p, q) && Recs(x, p, q, BLOCK * b) == [e]
    ensures b < MAX_BLOCKS && BlockOf(v, n, SlotOf(b)) in v.own && 0 < BlockOf(v, n, SlotOf(b)) < |v.d|
    ensures var w := v.(d := v.d[BlockOf(v, n, SlotOf(b)) := x]);
      TreeOk(g, w) && Edited(g, v, w, n, Entries(c)[k := e])
  {
    hide Tiles, Recs, Chunk, Owned, Exact, SlotOf, DataAt, BlockOf, Entries, Content, TailZero, InodeAt, FreeInodes, DirTiled, IsMeta;
    DirEdit(g, v, n, c, k, b, p, q, x, [e]);
    var phys := BlockOf(v, n, SlotOf(b));
    OwnerOf(g, v, phys);
    NotMetaWrite(g, v.d, phys, x);
    SameInodeAreaSame(g, v.d, v.d[phys := x]);
    assert Entries(c)[..k] + [e] + Entries(c)[k + 1..] == Entries(c)[k := e];
  }

  /** `unlink` frees record `k`. */
  lemma FreedRecord(g: Geometry, v: Vol, n: nat, c: seq<byte>, k: nat)
    requires GeometryOk(g) && |v.d| == g.blocks && TreeOk(g, v) && n in v.files && v.files[n].size <= MAX_BYTES
    requires c == Content(v, n) && DirTiled(c) && TailZero(v, n) && k < |Entries(c)|
    ensures var r := Entries(c)[k]; var b := r.off / BLOCK; var o := r.off % BLOCK;
      && b < MAX_BLOCKS && o + 8 <= BLOCK && 0 < BlockOf(v, n, SlotOf(b)) < |v.d|
      && var w := v.(d := v.d[BlockOf(v, n, SlotOf(b)) := FreeBytes(v.d[BlockOf(v, n, SlotOf(b))], o)]);
        TreeOk(g, w) && Edited(g, v, w, n, FreeRecord(Entries(c), k))
  {
    hide Tiles, Recs, Chunk, RecOk, RecAt, Owned, Exact, SlotOf, DataAt, BlockOf, Entries, Content, TailZero, DirTiled, FreeBytes, Edited, Span;
    var r := Entries(c)[k];
    var b, o := r.off / BLOCK, r.off % BLOCK;
    var i := RecordPlace(c, k);
    SpanBounds(Chunk(c, b), o, BLOCK * b);
    DirChunk(g, v, n, c, b);
    FreeBytesRecs(Chunk(c, b), o, BLOCK * b);
    EditRecord(g, v, n, c, k, b, o, o + r.len, FreeBytes(Chunk(c, b), o), r.(ino := 0, name := []));
  }

  /** `rename` rewrites the name of record `k`. */
  lemma RenamedRecord(g: Geometry, v: Vol, n: nat, c: seq<byte>, k: nat, name: Name)
    requires GeometryOk(g) && |v.d| == g.blocks && TreeOk(g, v) && n in v.files && v.files[n].size <= MAX_BYTES
    requires c == Content(v, n) && DirTiled(c) && TailZero(v, n) && k < |Entries(c)|
    requires Entries(c)[k].ino != 0 && |name| <= 255 && Span(name) <= Entries(c)[k].len
    ensures var r := Entries(c)[k]; var b := r.off / BLOCK; var o := r.off % BLOCK;
      && b < MAX_BLOCKS && o + 8 + |name| <= BLOCK && 0 < BlockOf(v, n, SlotOf(b)) < |v.d|
      && var w := v.(d := v.d[BlockOf(v, n, SlotOf(b)) := RenameBytes(v.d[BlockOf(v, n, SlotOf(b))], o, name)]);
        TreeOk(g, w) && Edited(g, v, w, n, RenameRecord(Entries(c), k, name))
  {
    hide Tiles, Recs, Chunk, RecOk, RecAt, Owned, Exact, SlotOf, DataAt, BlockOf, Entries, Content, TailZero, DirTiled, RenameBytes, Edited, Span;
    var r := Entries(c)[k];
    var b, o := r.off / BLOCK, r.off % BLOCK;
    var i := RecordPlace(c, k);
    SpanBounds(Chunk(c, b), o, BLOCK * b);
    SpanRounds(name);
    RecAtFields(Chunk(c, b), o, BLOCK * b);
    DirChunk(g, v, n, c, b);
    RenameBytesRecs(Chunk(c, b), o, name, BLOCK * b);
    EditRecord(g, v, n, c, k, b, o, o + r.len, RenameBytes(Chunk(c, b), o, name), r.(name := name));
  }

  lemma DirChunk(g: Geometry, v: Vol, n: nat, c: seq<byte>, b: nat)
    requires TreeOk(g, v) && n in v.files && v.files[n].size <= MAX_BYTES && c == Content(v, n) && DirTiled(c) && b < |c| / BLOCK
    ensures b < MAX_BLOCKS && 0 < BlockOf(v, n, SlotOf(b)) < |v.d| && Chunk(c, b) == v.d[BlockOf(v, n, SlotOf(b))]
  {
    hide Tiles, Chunk, Owned, Exact, SlotOf, DataAt, BlockOf, Content;
    ChunkIsData(v, n, b);
    TiledIsMapped(v, n, b);
    PlaceOf(g, v, n, SlotOf(b));
    DataOfBlock(v, n, SlotOf(b));
  }

  lemma SameButKept(v: Vol, w: Vol, p: nat)
    requires InodesOk(v) && InodesOk(w) && SameBut(v, w, p)
    ensures OthersKept(v, w, {p})
  {
    hide DataAt, Content;
    forall m | m in v.files && m != p ensures Unchanged(v, w, m) {
      if v.files[m].size <= MAX_BYTES { SameButContent(v, w, p, m); }
    }
  }
}
