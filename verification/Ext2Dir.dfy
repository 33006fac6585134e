/**
 Directories: variable-length records that tile each 1 KiB block of a directory's data.
 A block is a list of records; the list stands for a finite map from name to inode.
 */
module Ext2Dir {
  import opened Bytes
  import opened Ext2Layout

  type Name = seq<byte>

  /** A directory record; `off` is its byte offset in the directory's data, `ino` 0 if free. */
  datatype Rec = Rec(ino: nat, name: Name, len: nat, off: nat)

  // ---- records in a block ----

  function RecLen(b: Block, o: nat): nat
    requires o + 8 <= BLOCK
  {
    U16At(b, o + 4)
  }

  function RecIno(b: Block, o: nat): nat
    requires o + 8 <= BLOCK
  {
    U32At(b, o)
  }

  function NameLen(b: Block, o: nat): nat
    requires o + 8 <= BLOCK
  {
    b[o + 6]
  }

  /** A well-formed record starts at `o` and ends by `e`. */
  predicate RecOk(b: Block, o: nat, e: nat)
    requires e <= BLOCK
  {
    && o + 8 <= e
    && 8 <= RecLen(b, o) && RecLen(b, o) % 4 == 0 && o + RecLen(b, o) <= e
    && (RecIno(b, o) != 0 ==> 8 + NameLen(b, o) <= RecLen(b, o))
  }

  function RecAt(b: Block, o: nat, base: nat): Rec
    requires RecOk(b, o, BLOCK)
  {
    Rec(RecIno(b, o),
        if RecIno(b, o) != 0 then b[o + 8..o + 8 + NameLen(b, o)] else [],
        RecLen(b, o),
        base + o)
  }

  /** Records tile `o..e` exactly. */
  predicate Tiles(b: Block, o: nat, e: nat)
    requires e <= BLOCK
    decreases e - o
  {
    o == e || (RecOk(b, o, e) && Tiles(b, o + RecLen(b, o), e))
  }

  function Recs(b: Block, o: nat, e: nat, base: nat): (rs: seq<Rec>)
    requires e <= BLOCK && Tiles(b, o, e)
    decreases e - o
  {
    if o == e then [] else [RecAt(b, o, base)] + Recs(b, o + RecLen(b, o), e, base)
  }

  lemma RecOkAt(b: Block, o: nat, m: nat, e: nat)
    requires m <= e <= BLOCK && RecOk(b, o, m)
    ensures RecOk(b, o, e) && 8 <= RecLen(b, o) && o + RecLen(b, o) <= m
  {
  }

  lemma {:induction false} TilesJoin(b: Block, o: nat, m: nat, e: nat, base: nat)
    requires o <= m <= e <= BLOCK && Tiles(b, o, m) && Tiles(b, m, e)
    ensures Tiles(b, o, e) && Recs(b, o, e, base) == Recs(b, o, m, base) + Recs(b, m, e, base)
    decreases m - o
  {
    hide RecLen, RecIno, NameLen, RecAt, RecOk;
    if o < m {
      RecOkAt(b, o, m, e);
      RecOkAt(b, o, m, BLOCK);
      var o' := o + RecLen(b, o);
      TilesJoin(b, o', m, e, base);
      calc {
        Recs(b, o, e, base);
        [RecAt(b, o, base)] + Recs(b, o', e, base);
        [RecAt(b, o, base)] + (Recs(b, o', m, base) + Recs(b, m, e, base));
        Recs(b, o, m, base) + Recs(b, m, e, base);
      }
    } else {
      assert Recs(b, o, m, base) == [];
    }
  }

  /** A record depends only on its own bytes. */
  lemma RecLocal(b: Block, c: Block, o: nat, e: nat, base: nat)
    requires e <= BLOCK && RecOk(b, o, e)
    requires forall i :: o <= i < o + RecLen(b, o) ==> c[i] == b[i]
    ensures RecOk(c, o, e) && RecLen(c, o) == RecLen(b, o) && RecAt(c, o, base) == RecAt(b, o, base)
  {
    if RecIno(b, o) != 0 {
      assert c[o + 8..o + 8 + NameLen(b, o)] == b[o + 8..o + 8 + NameLen(b, o)];
    }
  }

  lemma {:induction false} TilesLocal(b: Block, c: Block, o: nat, e: nat, base: nat)
    requires o <= e <= BLOCK && Tiles(b, o, e)
    requires forall i :: o <= i < e ==> c[i] == b[i]
    ensures Tiles(c, o, e) && Recs(c, o, e, base) == Recs(b, o, e, base)
    decreases e - o
  {
    if o < e {
      RecLocal(b, c, o, e, base);
      TilesLocal(b, c, o + RecLen(b, o), e, base);
    }
  }

  /** Record `i` of a tiled stretch cuts it in three tiled stretches. */
  lemma {:induction false} TilesSplit(b: Block, o: nat, e: nat, base: nat, i: nat)
    requires o <= e <= BLOCK && Tiles(b, o, e) && i < |Recs(b, o, e, base)|
    ensures var r := Recs(b, o, e, base)[i];
      && base + o <= r.off && r.off + r.len <= base + e
      && RecOk(b, r.off - base, e) && r == RecAt(b, r.off - base, base)
      && Tiles(b, o, r.off - base) && Recs(b, o, r.off - base, base) == Recs(b, o, e, base)[..i]
      && Tiles(b, r.off - base + r.len, e) && Recs(b, r.off - base + r.len, e, base) == Recs(b, o, e, base)[i + 1..]
    decreases e - o
  {
    hide RecLen, RecIno, NameLen, RecOk, RecAt;
    RecOkAt(b, o, e, BLOCK);
    var o' := o + RecLen(b, o);
    var rs := Recs(b, o, e, base);
    var tail := Recs(b, o', e, base);
    assert rs == [RecAt(b, o, base)] + tail;
    if i == 0 {
      RecAtFields(b, o, base);
      assert rs[..0] == Recs(b, o, o, base);
      assert rs[1..] == tail;
    } else {
      TilesSplit(b, o', e, base, i - 1);
      assert rs[i] == tail[i - 1];
      var p := rs[i].off - base;
      RecOkShrink(b, o, p, e);
      assert Recs(b, o, p, base) == [rs[0]] + tail[..i - 1] == rs[..i];
      assert rs[i + 1..] == tail[i..];
    }
  }

  lemma RecAtFields(b: Block, o: nat, base: nat)
    requires RecOk(b, o, BLOCK)
    ensures RecAt(b, o, base).off == base + o && RecAt(b, o, base).len == RecLen(b, o)
  {
  }

  lemma RecOkShrink(b: Block, o: nat, m: nat, e: nat)
    requires m <= e <= BLOCK && RecOk(b, o, e) && o + RecLen(b, o) <= m
    ensures RecOk(b, o, m)
  {
  }

  /**
   Rewriting the bytes of record `i` by bytes that tile its extent replaces that record
   by the new ones and leaves the rest of the list alone.
   */
  lemma ReplaceRecord(b: Block, c: Block, base: nat, i: nat, p: nat, q: nat)
    requires Tiles(b, 0, BLOCK) && i < |Recs(b, 0, BLOCK, base)|
    requires Recs(b, 0, BLOCK, base)[i].off == base + p && q == p + Recs(b, 0, BLOCK, base)[i].len <= BLOCK
    requires forall k :: 0 <= k < BLOCK && !(p <= k < q) ==> c[k] == b[k]
    requires Tiles(c, p, q)
    ensures Tiles(c, 0, BLOCK)
    ensures var rs := Recs(b, 0, BLOCK, base);
      Recs(c, 0, BLOCK, base) == rs[..i] + Recs(c, p, q, base) + rs[i + 1..]
  {
    hide U16At, U32At, RecOk, RecAt, RecLen, Tiles, Recs;
    TilesSplit(b, 0, BLOCK, base, i);
    TilesLocal(b, c, 0, p, base);
    TilesLocal(b, c, q, BLOCK, base);
    TilesJoin(c, 0, p, q, base);
    TilesJoin(c, 0, q, BLOCK, base);
  }

  // ---- the driver's edits of one record ----

  /** Bytes a record for `name` needs: 8 bytes of header and the name, rounded up to 4. */
  function Span(name: Name): nat {
    (8 + |name| + 3) / 4 * 4
  }

  function WriteEntry(b: Block, o: nat, ino: nat, name: Name, len: nat): (r: Block)
    requires o + 8 + |name| <= BLOCK && ino < 0x1_0000_0000 && len < 0x1_0000 && |name| <= 255
    ensures forall i :: 0 <= i < BLOCK && !(o <= i < o + 8 + |name|) ==> r[i] == b[i]
    ensures RecIno(r, o) == ino && RecLen(r, o) == len && NameLen(r, o) == |name| && r[o + 8..o + 8 + |name|] == name
  {
    var b1 := PutU32(b, o, ino);
    var b2 := PutU16(b1, o + 4, len);
    var b3 := b2[o + 6 := |name|][o + 7 := 0];
    Blit(b3, o + 8, name)
  }

  function SetRecLen(b: Block, o: nat, len: nat): (r: Block)
    requires o + 8 <= BLOCK && len < 0x1_0000
    ensures forall i :: 0 <= i < BLOCK && !(o + 4 <= i < o + 6) ==> r[i] == b[i]
    ensures RecLen(r, o) == len
  {
    PutU16(b, o + 4, len)
  }

  lemma WrittenEntry(b: Block, o: nat, ino: nat, name: Name, len: nat, base: nat)
    requires 8 + |name| <= len && len % 4 == 0 && o + len <= BLOCK && ino < 0x1_0000_0000 && |name| <= 255
    ensures var c := WriteEntry(b, o, ino, name, len);
      && Tiles(c, o, o + len)
      && Recs(c, o, o + len, base) == [Rec(ino, if ino != 0 then name else [], len, base + o)]
  {
    hide U16At, U32At;
    var c := WriteEntry(b, o, ino, name, len);
    assert RecOk(c, o, o + len) && RecOk(c, o, BLOCK);
    assert Tiles(c, o + len, o + len) && Recs(c, o + len, o + len, base) == [];
  }

  /** Room record `e` can give to a new entry. */
  function Avail(e: Rec): int {
    if e.ino == 0 then e.len else e.len - Span(e.name)
  }

  /** The records that take the place of `e` when `name` moves into its room. */
  function Split(e: Rec, name: Name, target: nat): seq<Rec>
    requires Span(name) <= Avail(e)
  {
    var need := Span(name);
    if e.ino == 0 then
      if e.len - need >= 8 then
        [Rec(target, name, need, e.off), Rec(0, [], e.len - need, e.off + need)]
      else
        [Rec(target, name, e.len, e.off)]
    else
      [e.(len := Span(e.name)), Rec(target, name, e.len - Span(e.name), e.off + Span(e.name))]
  }

  function SplitBytes(b: Block, o: nat, e: Rec, name: Name, target: nat): (c: Block)
    requires o + e.len <= BLOCK && Span(name) <= Avail(e) && target < 0x1_0000_0000 && |name| <= 255 && 8 <= e.len
  {
    var need := Span(name);
    if e.ino == 0 then
      if e.len - need >= 8 then
        WriteEntry(WriteEntry(b, o, target, name, need), o + need, 0, [], e.len - need)
      else
        WriteEntry(b, o, target, name, e.len)
    else
      WriteEntry(SetRecLen(b, o, Span(e.name)), o + Span(e.name), target, name, e.len - Span(e.name))
  }

  lemma SplitBytesLocal(b: Block, o: nat, e: Rec, name: Name, target: nat)
    requires o + e.len <= BLOCK && Span(name) <= Avail(e) && target < 0x1_0000_0000 && |name| <= 255 && 8 <= e.len
    ensures forall k :: 0 <= k < BLOCK && !(o <= k < o + e.len) ==> SplitBytes(b, o, e, name, target)[k] == b[k]
  {
  }

  /** The stretch `o..e` is tiled by records, and they are `rs`. */
  ghost predicate ReadsAs(b: Block, o: nat, e: nat, base: nat, rs: seq<Rec>)
    requires e <= BLOCK
  {
    Tiles(b, o, e) && Recs(b, o, e, base) == rs
  }

  /** The bytes written for an insertion read back as the split record list. */
  lemma SplitBytesRecs(b: Block, o: nat, name: Name, target: nat, base: nat)
    requires RecOk(b, o, BLOCK) && 0 < target < 0x1_0000_0000 && |name| <= 255
    requires Span(name) <= Avail(RecAt(b, o, base))
    ensures var e := RecAt(b, o, base); ReadsAs(SplitBytes(b, o, e, name, target), o, o + e.len, base, Split(e, name, target))
  {
    var e := RecAt(b, o, base);
    var c := SplitBytes(b, o, e, name, target);
    if e.ino != 0 {
      SplitLive(b, o, name, target, base);
    } else if e.len - Span(name) >= 8 {
      SplitFree(b, o, name, target, base);
    } else {
      WrittenEntry(b, o, target, name, e.len, base);
    }
  }

  lemma SplitLive(b: Block, o: nat, name: Name, target: nat, base: nat)
    requires RecOk(b, o, BLOCK) && 0 < target < 0x1_0000_0000 && |name| <= 255
    requires RecAt(b, o, base).ino != 0 && Span(name) <= Avail(RecAt(b, o, base))
    ensures var e := RecAt(b, o, base); ReadsAs(SplitBytes(b, o, e, name, target), o, o + e.len, base, Split(e, name, target))
  {
    hide RecOk, RecLen, RecIno, NameLen, Span, WriteEntry, SetRecLen, Tiles, Recs;
    var e := RecAt(b, o, base);
    var own := Span(e.name);
    SpanBounds(b, o, base);
    SpanRounds(e.name);
    SpanRounds(name);
    var b1 := SetRecLen(b, o, own);
    var c := WriteEntry(b1, o + own, target, name, e.len - own);
    WrittenEntry(b1, o + own, target, name, e.len - own, base);
    assert RecLen(c, o) == own by { SameRecLen(b1, c, o); }
    ShrunkRecord(b, c, o, base);
    TilesJoin(c, o, o + own, o + e.len, base);
  }

  lemma SpanRounds(name: Name)
    ensures Span(name) % 4 == 0 && 8 + |name| <= Span(name) < 8 + |name| + 4
  {
  }

  lemma SpanBounds(b: Block, o: nat, base: nat)
    requires RecOk(b, o, BLOCK)
    ensures var e := RecAt(b, o, base);
      && e.off == base + o && o + e.len <= BLOCK && e.len % 4 == 0 && 8 <= e.len
      && e.ino == RecIno(b, o)
      && (e.ino != 0 ==> Span(e.name) <= e.len)
  {
  }

  lemma SameRecLen(b: Block, c: Block, o: nat)
    requires o + 8 <= BLOCK && c[o + 4] == b[o + 4] && c[o + 5] == b[o + 5]
    ensures RecLen(c, o) == RecLen(b, o)
  {
  }

  lemma SameRecIno(b: Block, c: Block, o: nat)
    requires o + 8 <= BLOCK && forall i :: o <= i < o + 4 ==> c[i] == b[i]
    ensures RecIno(c, o) == RecIno(b, o)
  {
  }

  /** A record that fills its room is the whole list there. */
  lemma OneRec(c: Block, o: nat, len: nat, base: nat)
    requires o + len <= BLOCK && RecOk(c, o, o + len) && RecLen(c, o) == len
    ensures Tiles(c, o, o + len) && RecOk(c, o, BLOCK) && Recs(c, o, o + len, base) == [RecAt(c, o, base)]
  {
    hide RecLen, RecIno, NameLen;
    assert Tiles(c, o + len, o + len) && Recs(c, o + len, o + len, base) == [];
  }

  /** A live record cut down to its own span is the same name and inode in less room. */
  lemma ShrunkRecord(b: Block, c: Block, o: nat, base: nat)
    requires RecOk(b, o, BLOCK) && RecIno(b, o) != 0
    requires var own := Span(RecAt(b, o, base).name); forall i :: o <= i < o + own && !(o + 4 <= i < o + 6) ==> c[i] == b[i]
    requires RecLen(c, o) == Span(RecAt(b, o, base).name)
    ensures var e := RecAt(b, o, base); var own := Span(e.name);
      own <= e.len && Tiles(c, o, o + own) && Recs(c, o, o + own, base) == [e.(len := own)]
  {
    hide RecLen, RecIno, Tiles, Recs, Span;
    var e := RecAt(b, o, base);
    var own := Span(e.name);
    SpanBounds(b, o, base);
    SpanRounds(e.name);
    SameRecIno(b, c, o);
    assert NameLen(c, o) == NameLen(b, o);
    assert c[o + 8..o + 8 + NameLen(b, o)] == b[o + 8..o + 8 + NameLen(b, o)];
    OneRec(c, o, own, base);
  }

  lemma SplitFree(b: Block, o: nat, name: Name, target: nat, base: nat)
    requires RecOk(b, o, BLOCK) && 0 < target < 0x1_0000_0000 && |name| <= 255
    requires RecIno(b, o) == 0 && Span(name) + 8 <= RecLen(b, o)
    ensures var e := RecAt(b, o, base); ReadsAs(SplitBytes(b, o, e, name, target), o, o + e.len, base, Split(e, name, target))
  {
    hide RecOk, RecLen, RecIno, NameLen, Span, WriteEntry, Tiles, Recs;
    var e := RecAt(b, o, base);
    var need := Span(name);
    SpanBounds(b, o, base);
    SpanRounds(name);
    var b1 := WriteEntry(b, o, target, name, need);
    var c := WriteEntry(b1, o + need, 0, [], e.len - need);
    WrittenEntry(b, o, target, name, need, base);
    WrittenEntry(b1, o + need, 0, [], e.len - need, base);
    TilesLocal(b1, c, o, o + need, base);
    TilesJoin(c, o, o + need, o + e.len, base);
  }

  /** Free a record: inode and name length 0, extent kept. */
  function FreeBytes(b: Block, o: nat): (c: Block)
    requires o + 8 <= BLOCK
  {
    var b1 := PutU32(b, o, 0);
    b1[o + 6 := 0]
  }

  lemma FreeBytesRecs(b: Block, o: nat, base: nat)
    requires RecOk(b, o, BLOCK)
    ensures var e := RecAt(b, o, base); var c := FreeBytes(b, o);
      && (forall k :: 0 <= k < BLOCK && !(o <= k < o + e.len) ==> c[k] == b[k])
      && Tiles(c, o, o + e.len) && Recs(c, o, o + e.len, base) == [e.(ino := 0, name := [])]
  {
    var e := RecAt(b, o, base);
    var c := FreeBytes(b, o);
    assert RecOk(c, o, o + e.len) && RecAt(c, o, base) == e.(ino := 0, name := []);
    OneRec(c, o, e.len, base);
  }

  /** Rewrite the name of a record in place; the length byte keeps the low 8 bits. */
  function RenameBytes(b: Block, o: nat, name: Name): (c: Block)
    requires o + 8 + |name| <= BLOCK
  {
    Blit(b[o + 6 := |name| % 256], o + 8, name)
  }

  lemma RenameBytesRecs(b: Block, o: nat, name: Name, base: nat)
    requires RecOk(b, o, BLOCK) && RecIno(b, o) != 0 && |name| <= 255 && Span(name) <= RecLen(b, o)
    ensures var e := RecAt(b, o, base); var c := RenameBytes(b, o, name);
      && (forall k :: 0 <= k < BLOCK && !(o <= k < o + e.len) ==> c[k] == b[k])
      && Tiles(c, o, o + e.len) && Recs(c, o, o + e.len, base) == [e.(name := name)]
  {
    var e := RecAt(b, o, base);
    var c := RenameBytes(b, o, name);
    assert c[o + 8..o + 8 + |name|] == name;
    assert c[o + 6] == |name|;
    SameRecLen(b, c, o);
    SameRecIno(b, c, o);
    hide U16At, U32At, RecLen, RecIno;
    OneRec(c, o, e.len, base);
  }
}
