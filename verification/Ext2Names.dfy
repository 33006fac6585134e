/**
 Directory lists: the live names of a record list, the map from name to inode they stand
 for, and what insertion, removal and renaming of a record do to that map.
 */
module Ext2Names {
  import opened Bytes
  import opened Ext2Layout
  import opened Ext2Dir

  datatype Link = Link(name: Name, ino: nat)

  /** The live records, in directory order. */
  function Live(es: seq<Rec>): (ls: seq<Link>) {
    if es == [] then []
    else if es[0].ino != 0 then [Link(es[0].name, es[0].ino)] + Live(es[1..])
    else Live(es[1..])
  }

  function LiveHead(e: Rec): seq<Link> {
    if e.ino != 0 then [Link(e.name, e.ino)] else []
  }

  lemma LiveStep(a: seq<Rec>)
    requires a != []
    ensures Live(a) == LiveHead(a[0]) + Live(a[1..])
  {
  }

  lemma {:induction false} LiveConcat(a: seq<Rec>, b: seq<Rec>)
    ensures Live(a + b) == Live(a) + Live(b)
  {
    if a == [] {
      assert a + b == b;
    } else {
      hide Live, LiveHead;
      LiveConcat(a[1..], b);
      assert (a + b)[1..] == a[1..] + b && (a + b)[0] == a[0];
      LiveStep(a);
      LiveStep(a + b);
    }
  }

  lemma LiveReplace(es: seq<Rec>, i: nat, rs: seq<Rec>)
    requires i < |es|
    ensures Live(es[..i] + rs + es[i + 1..]) == Live(es[..i]) + Live(rs) + Live(es[i + 1..])
    ensures Live(es) == Live(es[..i]) + Live([es[i]]) + Live(es[i + 1..])
  {
    LiveConcat(es[..i] + rs, es[i + 1..]);
    LiveConcat(es[..i], rs);
    LiveConcat(es[..i] + [es[i]], es[i + 1..]);
    LiveConcat(es[..i], [es[i]]);
    assert es == es[..i] + [es[i]] + es[i + 1..];
  }

  ghost predicate Has(ls: seq<Link>, x: Name) {
    exists i :: 0 <= i < |ls| && ls[i].name == x
  }

  /** What `lookup_in` answers: the first live record with the name. */
  function NameMap(ls: seq<Link>): (m: map<Name, nat>)
    ensures forall x :: x in m <==> Has(ls, x)
  {
    if ls == [] then map[]
    else
      var m := NameMap(ls[1..])[ls[0].name := ls[0].ino];
      assert forall x :: Has(ls, x) <==> x == ls[0].name || Has(ls[1..], x) by {
        forall x ensures Has(ls, x) <==> x == ls[0].name || Has(ls[1..], x) {
          HasCons(ls, x);
        }
      }
      m
  }

  lemma HasCons(ls: seq<Link>, x: Name)
    requires ls != []
    ensures Has(ls, x) <==> x == ls[0].name || Has(ls[1..], x)
  {
    if Has(ls[1..], x) {
      var i :| 0 <= i < |ls[1..]| && ls[1..][i].name == x;
      assert ls[i + 1].name == x;
    }
    if Has(ls, x) {
      var i :| 0 <= i < |ls| && ls[i].name == x;
      assert i > 0 ==> ls[1..][i - 1].name == x;
    }
    assert ls[0].name == x ==> Has(ls, x);
  }

  predicate Distinct(ls: seq<Link>) {
    forall i, j :: 0 <= i < j < |ls| ==> ls[i].name != ls[j].name
  }

  lemma {:induction false} NameMapAt(ls: seq<Link>, k: nat)
    requires Distinct(ls) && k < |ls|
    ensures ls[k].name in NameMap(ls) && NameMap(ls)[ls[k].name] == ls[k].ino
  {
    if k > 0 {
      NameMapAt(ls[1..], k - 1);
    }
  }

  /** A map with the list's names and, name by name, the list's inodes is the list's map. */
  lemma NameMapIs(ls: seq<Link>, m: map<Name, nat>)
    requires Distinct(ls)
    requires forall x :: x in m ==> Has(ls, x)
    requires forall i :: 0 <= i < |ls| ==> ls[i].name in m && m[ls[i].name] == ls[i].ino
    ensures NameMap(ls) == m
  {
    hide NameMap;
    forall x | x in m ensures NameMap(ls)[x] == m[x] {
      var i :| 0 <= i < |ls| && ls[i].name == x;
      NameMapAt(ls, i);
    }
  }

  lemma InsertLink(ls: seq<Link>, k: nat, l: Link)
    requires k <= |ls| && Distinct(ls) && l.name !in NameMap(ls)
    ensures var r := ls[..k] + [l] + ls[k..];
      Distinct(r) && NameMap(r) == NameMap(ls)[l.name := l.ino]
  {
    hide NameMap, Has, Distinct;
    var r := ls[..k] + [l] + ls[k..];
    InsertDistinct(ls, k, l);
    var m := NameMap(ls)[l.name := l.ino];
    forall i | 0 <= i < |r| ensures r[i].name in m && m[r[i].name] == r[i].ino {
      if i == k {
        assert r[i] == l;
      } else {
        var q := if i < k then i else i - 1;
        assert r[i] == ls[q];
        NameMapAt(ls, q);
      }
    }
    forall x | x in m ensures Has(r, x) {
      InsertHas(ls, k, l, x);
    }
    NameMapIs(r, m);
  }

  lemma InsertHas(ls: seq<Link>, k: nat, l: Link, x: Name)
    requires k <= |ls| && (x == l.name || Has(ls, x))
    ensures Has(ls[..k] + [l] + ls[k..], x)
  {
    var r := ls[..k] + [l] + ls[k..];
    if x == l.name {
      assert r[k].name == x;
    } else {
      var i :| 0 <= i < |ls| && ls[i].name == x;
      assert r[if i < k then i else i + 1].name == x;
    }
  }

  lemma InsertDistinct(ls: seq<Link>, k: nat, l: Link)
    requires k <= |ls| && Distinct(ls) && !Has(ls, l.name)
    ensures Distinct(ls[..k] + [l] + ls[k..])
  {
    var r := ls[..k] + [l] + ls[k..];
    forall i, j | 0 <= i < j < |r| ensures r[i].name != r[j].name {
      assert i != k ==> r[i] == ls[if i < k then i else i - 1];
      assert j != k ==> r[j] == ls[if j < k then j else j - 1];
    }
  }

  lemma RemoveLink(ls: seq<Link>, k: nat)
    requires k < |ls| && Distinct(ls)
    ensures var r := ls[..k] + ls[k + 1..];
      Distinct(r) && NameMap(r) == NameMap(ls) - {ls[k].name}
  {
    hide NameMap;
    var r := ls[..k] + ls[k + 1..];
    forall i, j | 0 <= i < j < |r| ensures r[i].name != r[j].name {
      assert r[i] == ls[if i < k then i else i + 1] && r[j] == ls[if j < k then j else j + 1];
    }
    var m := NameMap(ls) - {ls[k].name};
    forall i | 0 <= i < |r| ensures r[i].name in m && m[r[i].name] == r[i].ino {
      NameMapAt(ls, if i < k then i else i + 1);
    }
    forall x | x in m ensures Has(r, x) {
      var i :| 0 <= i < |ls| && ls[i].name == x;
      assert r[if i < k then i else i - 1].name == x;
    }
    NameMapIs(r, m);
  }

  lemma RenameLink(ls: seq<Link>, k: nat, name: Name)
    requires k < |ls| && Distinct(ls) && name !in NameMap(ls)
    ensures var r := ls[k := Link(name, ls[k].ino)];
      Distinct(r) && NameMap(r) == (NameMap(ls) - {ls[k].name})[name := ls[k].ino]
  {
    hide NameMap, Distinct;
    var r := ls[k := Link(name, ls[k].ino)];
    var cut := ls[..k] + ls[k + 1..];
    RemoveLink(ls, k);
    assert cut[..k] == ls[..k] && cut[k..] == ls[k + 1..];
    InsertLink(cut, k, Link(name, ls[k].ino));
    assert r == cut[..k] + [Link(name, ls[k].ino)] + cut[k..];
  }

  // ---- insertion into a record list ----

  /** The first record with room for `need` bytes, or the list's length. */
  function FirstFit(es: seq<Rec>, need: nat): (i: nat)
    ensures i <= |es|
    ensures forall k :: 0 <= k < i ==> Avail(es[k]) < need
    ensures i < |es| ==> need <= Avail(es[i])
  {
    if es == [] then 0
    else if need <= Avail(es[0]) then 0
    else
      var r := FirstFit(es[1..], need);
      assert forall k :: 0 < k < 1 + r ==> es[k] == es[1..][k - 1];
      1 + r
  }

  /** The record list after inserting `name -> target`: split the first fit, or add a block. */
  function AddRecord(es: seq<Rec>, size: nat, name: Name, target: nat): seq<Rec> {
    var i := FirstFit(es, Span(name));
    if i < |es| then es[..i] + Split(es[i], name, target) + es[i + 1..]
    else es + [Rec(target, name, BLOCK, size)]
  }

  /** Insertion adds exactly one live name, wherever its record lands. */
  lemma LiveAdd(es: seq<Rec>, size: nat, name: Name, target: nat) returns (k: nat)
    requires target != 0
    ensures k <= |Live(es)|
    ensures Live(AddRecord(es, size, name, target)) == Live(es)[..k] + [Link(name, target)] + Live(es)[k..]
  {
    hide Live, FirstFit, Span;
    var i := FirstFit(es, Span(name));
    if i < |es| {
      var rs := Split(es[i], name, target);
      LiveReplace(es, i, rs);
      LiveOne(es[i]);
      LiveSplit(es[i], name, target);
      k := |Live(es[..i])| + |Live([es[i]])|;
      var pre, post := Live(es[..i]), Live(es[i + 1..]);
      assert Live(es)[..k] == pre + Live([es[i]]) && Live(es)[k..] == post;
      assert Live(es[..i] + rs + es[i + 1..]) == pre + (Live([es[i]]) + [Link(name, target)]) + post;
    } else {
      k := |Live(es)|;
      LiveOne(Rec(target, name, BLOCK, size));
      LiveConcat(es, [Rec(target, name, BLOCK, size)]);
    }
  }

  lemma LiveOne(r: Rec)
    ensures Live([r]) == if r.ino != 0 then [Link(r.name, r.ino)] else []
  {
  }

  /** A split keeps the old live name, if any, and appends the new one. */
  lemma LiveSplit(e: Rec, name: Name, target: nat)
    requires Span(name) <= Avail(e) && target != 0
    ensures Live(Split(e, name, target)) == Live([e]) + [Link(name, target)]
  {
    var rs := Split(e, name, target);
    LivePair(rs);
  }

  lemma LivePair(rs: seq<Rec>)
    requires 1 <= |rs| <= 2
    ensures |rs| == 2 ==> Live(rs) == Live([rs[0]]) + Live([rs[1]])
  {
    if |rs| == 2 {
      assert rs == [rs[0]] + [rs[1]];
      LiveConcat([rs[0]], [rs[1]]);
    }
  }

  /** The list with record `i` freed. */
  function FreeRecord(es: seq<Rec>, i: nat): seq<Rec>
    requires i < |es|
  {
    es[i := es[i].(ino := 0, name := [])]
  }

  lemma LiveFree(es: seq<Rec>, i: nat) returns (k: nat)
    requires i < |es| && es[i].ino != 0
    ensures k < |Live(es)| && Live(es)[k] == Link(es[i].name, es[i].ino)
    ensures Live(FreeRecord(es, i)) == Live(es)[..k] + Live(es)[k + 1..]
  {
    k := |Live(es[..i])|;
    var rs := [es[i].(ino := 0, name := [])];
    LiveReplace(es, i, rs);
    assert FreeRecord(es, i) == es[..i] + rs + es[i + 1..];
    assert Live([es[i]]) == [Link(es[i].name, es[i].ino)] && Live(rs) == [];
  }

  function RenameRecord(es: seq<Rec>, i: nat, name: Name): seq<Rec>
    requires i < |es|
  {
    es[i := es[i].(name := name)]
  }

  lemma LiveRename(es: seq<Rec>, i: nat, name: Name) returns (k: nat)
    requires i < |es| && es[i].ino != 0
    ensures k < |Live(es)| && Live(es)[k] == Link(es[i].name, es[i].ino)
    ensures Live(RenameRecord(es, i, name)) == Live(es)[k := Link(name, es[i].ino)]
  {
    k := |Live(es[..i])|;
    var rs := [es[i].(name := name)];
    LiveReplace(es, i, rs);
    assert RenameRecord(es, i, name) == es[..i] + rs + es[i + 1..];
    assert Live([es[i]]) == [Link(es[i].name, es[i].ino)] && Live(rs) == [Link(name, es[i].ino)];
  }

  // ---- a directory's data ----

  function Chunk(c: seq<byte>, l: nat): Block
    requires BLOCK * (l + 1) <= |c|
  {
    c[BLOCK * l..BLOCK * (l + 1)]
  }

  /** Records tile every block of the directory's data. */
  predicate DirTiled(c: seq<byte>) {
    |c| % BLOCK == 0 && forall l :: 0 <= l < |c| / BLOCK ==> Tiles(Chunk(c, l), 0, BLOCK)
  }

  function EntriesTo(c: seq<byte>, l: nat): seq<Rec>
    requires DirTiled(c) && l <= |c| / BLOCK
  {
    if l == 0 then [] else EntriesTo(c, l - 1) + Recs(Chunk(c, l - 1), 0, BLOCK, BLOCK * (l - 1))
  }

  /** Every record of the directory, free ones included, block by block. */
  function Entries(c: seq<byte>): seq<Rec>
    requires DirTiled(c)
  {
    EntriesTo(c, |c| / BLOCK)
  }

  lemma {:induction false} EntriesLocal(c: seq<byte>, e: seq<byte>, l: nat)
    requires DirTiled(c) && DirTiled(e) && l <= |c| / BLOCK && l <= |e| / BLOCK
    requires forall k :: 0 <= k < l ==> Chunk(e, k) == Chunk(c, k)
    ensures EntriesTo(e, l) == EntriesTo(c, l)
  {
    hide Tiles, Recs, Chunk;
    if l > 0 { EntriesLocal(c, e, l - 1); }
  }

  /** The block and the index in that block of record `k`. */
  lemma {:induction false} Locate(c: seq<byte>, l: nat, k: nat) returns (b: nat, i: nat)
    requires DirTiled(c) && l <= |c| / BLOCK && k < |EntriesTo(c, l)|
    ensures b < l && i < |Recs(Chunk(c, b), 0, BLOCK, BLOCK * b)|
    ensures Recs(Chunk(c, b), 0, BLOCK, BLOCK * b)[i] == EntriesTo(c, l)[k]
    ensures k == |EntriesTo(c, b)| + i
  {
    hide Tiles, Recs, Chunk;
    if k < |EntriesTo(c, l - 1)| {
      b, i := Locate(c, l - 1, k);
    } else {
      b, i := l - 1, k - |EntriesTo(c, l - 1)|;
    }
  }

  lemma SpliceTail(ps: seq<Rec>, os: seq<Rec>, i: nat, rs: seq<Rec>)
    requires i < |os|
    ensures var es := ps + os; var k := |ps| + i; ps + (os[..i] + rs + os[i + 1..]) == es[..k] + rs + es[k + 1..]
  {
    var es := ps + os;
    assert es[..|ps| + i] == ps + os[..i] && es[|ps| + i + 1..] == os[i + 1..];
  }

  lemma SpliceHead(ps: seq<Rec>, os: seq<Rec>, k: nat, rs: seq<Rec>)
    requires k < |ps|
    ensures var es := ps + os; (ps[..k] + rs + ps[k + 1..]) + os == es[..k] + rs + es[k + 1..]
  {
    var es := ps + os;
    assert es[..k] == ps[..k] && es[k + 1..] == ps[k + 1..] + os;
  }

  /** Replacing a record of block `b` by the list `rs` replaces it in the directory's list. */
  lemma {:induction false} EntriesReplace(c: seq<byte>, e: seq<byte>, l: nat, b: nat, i: nat, rs: seq<Rec>)
    requires DirTiled(c) && DirTiled(e) && |e| == |c| && b < l <= |c| / BLOCK
    requires forall k :: 0 <= k < |c| / BLOCK && k != b ==> Chunk(e, k) == Chunk(c, k)
    requires var os := Recs(Chunk(c, b), 0, BLOCK, BLOCK * b);
      i < |os| && Recs(Chunk(e, b), 0, BLOCK, BLOCK * b) == os[..i] + rs + os[i + 1..]
    ensures var k := |EntriesTo(c, b)| + i; var es := EntriesTo(c, l);
      k < |es| && EntriesTo(e, l) == es[..k] + rs + es[k + 1..]
  {
    hide Tiles, Recs, Chunk;
    var k := |EntriesTo(c, b)| + i;
    var es := EntriesTo(c, l);
    var os := Recs(Chunk(c, l - 1), 0, BLOCK, BLOCK * (l - 1));
    if b == l - 1 {
      EntriesLocal(c, e, b);
      SpliceTail(EntriesTo(c, b), os, i, rs);
    } else {
      EntriesReplace(c, e, l - 1, b, i, rs);
      SpliceHead(EntriesTo(c, l - 1), os, k, rs);
    }
  }
}
