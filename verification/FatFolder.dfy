/**
 The directory operations of the FAT driver: create, remove and rename, each with what it does
 to the listing.
 */
module FatFolder {
  import opened Bytes
  import opened Fs
  import opened FatSlots
  import opened FatShort
  import opened FatDirectory

  /** The time words of a short entry, as the clock gave them. */
  datatype Stamps = Stamps(created: seq<byte>, written: seq<byte>)

  predicate StampsOk(t: Stamps) {
    |t.created| == 6 && |t.written| == 4
  }

  function U16(v: nat): (r: seq<byte>)
    requires v < 0x1_0000
    ensures |r| == 2 && r[0] as int + 256 * r[1] as int == v
  {
    [v % 256, v / 256]
  }

  /** A short entry: name, attribute, times, cluster in two halves, size. */
  function ShortSlot(short: seq<byte>, isDir: bool, cluster: nat, size: nat, t: Stamps): (s: Slot)
    requires |short| == 11 && cluster < 0x1_0000_0000 && size < 0x1_0000_0000 && StampsOk(t)
  {
    var attr := if isDir then ATTR_DIR else ATTR_ARCHIVE;
    short + [attr, 0, 0] + t.created + U16(cluster / 0x1_0000) + t.written + U16(cluster % 0x1_0000)
      + U16(size % 0x1_0000) + U16(size / 0x1_0000)
  }

  /** A short entry reads back as what was put into it. */
  lemma ShortSlotReads(short: seq<byte>, isDir: bool, cluster: nat, size: nat, t: Stamps)
    requires |short| == 11 && cluster < 0x1_0000_0000 && size < 0x1_0000_0000 && StampsOk(t)
    ensures var s := ShortSlot(short, isDir, cluster, size, t);
      && s[..11] == short && s[0] == short[0] && s[12] == 0
      && 0x1_0000 * U16At(s, 20) + U16At(s, 26) == cluster && U32At(s, 28) == size
      && ((s[11] / 16) % 2 == 1 <==> isDir)
      && (short[0] != 0 && short[0] != 0xE5 ==> KindOf(s) == Regular)
  {
    var s := ShortSlot(short, isDir, cluster, size, t);
    assert s[20..22] == U16(cluster / 0x1_0000) && s[26..28] == U16(cluster % 0x1_0000);
    assert s[28..30] == U16(size % 0x1_0000) && s[30..32] == U16(size / 0x1_0000);
  }

  /** The short names in the directory, leaving out those that fold to `except`. */
  function Shorts(list: seq<(nat, Entry)>, except: Option<Name>): (r: seq<Name>)
    ensures forall k :: 0 <= k < |list| && !(except.Some? && EqFold(list[k].1.short, except.value)) ==> list[k].1.short in r
    ensures forall x :: x in r ==> exists k :: 0 <= k < |list| && list[k].1.short == x
  {
    if list == [] then []
    else
      var r := Shorts(list[1..], except);
      assert forall k :: 1 <= k < |list| ==> list[k] == list[1..][k - 1];
      if except.Some? && EqFold(list[0].1.short, except.value) then r else [list[0].1.short] + r
  }

  /** What a name becomes on disk: its eleven short bytes and its long slots. */
  function Derive(dir: seq<Slot>, name: Name, except: Option<Name>): (r: Result<(seq<byte>, seq<Slot>)>)
    ensures r.Ok? ==> |r.value.0| == 11
    ensures r.Err? ==> r.error in {NotSupported, NoSpace}
  {
    if NeedsLong(name) then
      var short := UniqueFrom(name, Shorts(Listing(dir, 0), except), 1);
      if short.Err? then Err(short.error) else Ok((short.value, LongSlots(Trim(name), Checksum(short.value))))
    else
      var short := MakeShort(name);
      if short.Err? then Err(short.error) else Ok((short.value, []))
  }

  /** How many long slots a name takes. */
  function LongCount(name: Name): nat {
    if NeedsLong(name) then SlotCount(|Trim(name)|) else 0
  }

  /** No short name can be had for it, or no cluster has room for it and there is no further cluster. */
  ghost predicate NoPlace(dir: seq<Slot>, per: nat, name: Name, except: Option<Name>, full: bool) {
    Derive(dir, name, except).Err? || (full && Crowded(dir, per, LongCount(name) + 1))
  }

  /** The name an entry is meant to carry: in full when it is long, in upper case otherwise. */
  function Stored(name: Name): Name {
    if NeedsLong(name) then Trim(name) else UpperAll(Trim(name))
  }

  /** An entry reads as it was meant to, its name without trailing dots and spaces exactly when the format can hold that. */
  ghost predicate ReadsAs(e: Entry, name: Name, cluster: nat, size: nat, isDir: bool) {
    && (e.name == Stored(name) <==> Storable(Trim(name)))
    && e.cluster == cluster && e.size == size && e.isDir == isDir
  }

  /** An entry answers to a name exactly when the format can hold it and there was nothing to trim. */
  ghost predicate Answers(e: Entry, name: Name) {
    Matches(e, name) <==> Trim(name) == name && Storable(name)
  }

  /**
   The slots derived from a name spell it without its trailing dots and spaces exactly when the
   format can hold that, and answer to the name itself exactly when nothing was trimmed either.
   */
  lemma DerivedReads(dir: seq<Slot>, name: Name, except: Option<Name>, isDir: bool, cluster: nat, size: nat, t: Stamps)
    requires |name| <= 403 && Derive(dir, name, except).Ok?
    requires cluster < 0x1_0000_0000 && size < 0x1_0000_0000 && StampsOk(t)
    ensures var (short, longs) := Derive(dir, name, except).value; var slot := ShortSlot(short, isDir, cluster, size, t);
      && RunOfEntry(longs, slot) && RunOk(ExtendAll(CLEAR, longs))
      && var e := EntryOf(slot, ExtendAll(CLEAR, longs)); ReadsAs(e, name, cluster, size, isDir) && Answers(e, name)
  {
    hide ShortSlot, LongSlots, ExtendAll, LongName, ShortName, Checksum, UniqueFrom, MakeShort, Shorts, NeedsLong, Storable, Trim, Listing, RunOk, EqFold, Tidy, RunOfEntry;
    var (short, longs) := Derive(dir, name, except).value;
    var slot := ShortSlot(short, isDir, cluster, size, t);
    ShortSlotReads(short, isDir, cluster, size, t);
    DerivedRun(dir, name, except, isDir, cluster, size, t);
    EmptyRun();
    var run := ExtendAll(CLEAR, longs);
    if NeedsLong(name) {
      UniqueIsFresh(name, Shorts(Listing(dir, 0), except), 1, slot);
      LongNameRoundTrip(Trim(name), Checksum(short));
      LongAnswers(LongName(run), ShortName(slot), name);
    } else {
      ShortRoundTrip(name, slot);
      ShortAnswers(ShortName(slot), name);
    }
  }

  lemma LongAnswers(long: Name, short: Name, name: Name)
    requires Storable(long) && |long| <= |Trim(name)| && Tidy(short) && (long == Trim(name) <==> Storable(Trim(name)))
    ensures EqFold(long, name) || EqFold(short, name) <==> Trim(name) == name && Storable(name)
  {
    hide Storable, Lower, Surrogate;
    if EqFold(long, name) { FoldKeeps(long, name); }
    if EqFold(short, name) { FoldKeeps(short, name); }
    if Trim(name) == name && Storable(name) { UpperFolds(name); }
  }

  lemma ShortAnswers(short: Name, name: Name)
    requires Tidy(short) && short == UpperAll(Trim(name))
    ensures Storable(Trim(name))
    ensures EqFold(short, name) <==> Trim(name) == name && Storable(name)
  {
    hide Storable, Lower, Surrogate;
    UpperFolds(Trim(name));
    FoldKeeps(short, Trim(name));
  }

  lemma EmptyRun()
    ensures ExtendAll(CLEAR, []) == CLEAR && RunOk(CLEAR)
  {
  }

  lemma LongsAreLong(units: Name, sum: byte)
    requires |units| <= 403
    ensures forall k :: 0 <= k < |LongSlots(units, sum)| ==> KindOf(LongSlots(units, sum)[k]) == Long
  {
    var slots := LongSlots(units, sum);
    forall k | 0 <= k < |slots| ensures KindOf(slots[k]) == Long {
      SlotHead(units, 13 * k, |slots| - k, sum);
      assert slots[k][0] == if |slots| - k == 1 then 1 + LFN_LAST else (|slots| - k) % 256;
    }
  }

  /** No two entries answer to the same short name. */
  ghost predicate AliasesDistinct(dir: seq<Slot>) {
    forall i: nat, j: nat :: Live(dir, i) && Live(dir, j) && i != j ==> !EqFold(EntryAt(dir, i).short, EntryAt(dir, j).short)
  }

  /** A short name that ends in a dot, against the short name of somebody who has it without. */
  predicate DotTwin(name: Name, short: Name) {
    !NeedsLong(name) && name != [] && name[|name| - 1] == DOT && EqFold(short, name[..|name| - 1])
  }

  /** Somebody other than `gone` has the short name that `name` becomes when its dot is dropped. */
  ghost predicate DotClash(dir: seq<Slot>, name: Name, gone: Option<nat>) {
    exists i: nat :: Live(dir, i) && gone != Some(i) && DotTwin(name, EntryAt(dir, i).short)
  }

  /** The derived short name folds to that of an entry exactly when the two differ in a final dot. */
  lemma DerivedAlias(dir: seq<Slot>, name: Name, except: Option<Name>, slot: Slot, i: nat)
    requires Derive(dir, name, except).Ok? && slot[..11] == Derive(dir, name, except).value.0 && slot[12] == 0
    requires Live(dir, i) && !(except.Some? && EqFold(EntryAt(dir, i).short, except.value))
    requires !Matches(EntryAt(dir, i), name)
    ensures EqFold(EntryAt(dir, i).short, ShortName(slot)) <==> DotTwin(name, EntryAt(dir, i).short)
  {
    hide EntryOf, ShortName, UniqueFrom, MakeShort, NeedsLong, Listing, Trim, Storable, EqFold, Tidy;
    var theirs := EntryAt(dir, i).short;
    if NeedsLong(name) {
      var taken := Shorts(Listing(dir, 0), except);
      UniqueIsFresh(name, taken, 1, slot);
      ListingLive(dir, 0, (i, EntryAt(dir, i)));
      assert theirs in taken;
    } else {
      ShortRoundTrip(name, slot);
      FoldsThrough(theirs, Trim(name), ShortName(slot));
    }
  }

  lemma FoldsThrough(a: Name, b: Name, c: Name)
    requires c == UpperAll(b)
    ensures EqFold(a, c) <==> EqFold(a, b)
  {
    UpperFolds(b);
    if EqFold(a, c) { FoldTrans(a, c, b); }
    if EqFold(a, b) { FoldTrans(a, b, c); }
  }

  /** The listing gained one entry at `at` and lost the one at `gone`, if any; the rest reads as before. */
  ghost predicate Replaced(before: seq<Slot>, after: seq<Slot>, gone: Option<nat>, at: nat) {
    && !Live(before, at)
    && (forall i: nat :: Live(after, i) <==> (Live(before, i) && gone != Some(i)) || i == at)
    && (forall i: nat :: Live(before, i) && gone != Some(i) ==> EntryAt(after, i) == EntryAt(before, i))
  }

  /** The entry in slot `at` reads as it was meant to. */
  ghost predicate Carries(dir: seq<Slot>, at: nat, name: Name, cluster: nat, size: nat, isDir: bool) {
    at < |dir| && ReadsAs(EntryAt(dir, at), name, cluster, size, isDir)
  }

  /**
   The new entry is the only one that may answer to its name. A lookup of the name
   finds it exactly when the format can hold the name and there was nothing to trim.
   */
  ghost predicate NamedAt(dir: seq<Slot>, at: nat, name: Name, cluster: nat, size: nat, isDir: bool) {
    && Live(dir, at)
    && (forall i: nat :: Live(dir, i) && i != at ==> !Matches(EntryAt(dir, i), name))
    && Find(dir, name) == (if Trim(name) == name && Storable(name) then Some(at) else None)
    && Carries(dir, at, name, cluster, size, isDir)
  }

  /** Every entry that was listed still is, and reads as before. */
  ghost predicate Kept(before: seq<Slot>, after: seq<Slot>) {
    forall i: nat :: Live(before, i) ==> Live(after, i) && EntryAt(after, i) == EntryAt(before, i)
  }

  ghost predicate SameListing(before: seq<Slot>, after: seq<Slot>) {
    Kept(before, after) && forall i: nat :: Live(after, i) ==> Live(before, i)
  }

  /**
   A written run joins the listing unless an end marker lies in front of it, and it is all that
   joins exactly when nothing comes to light behind it.
   */
  lemma PutReplaces(dir: seq<Slot>, out: seq<Slot>, si: nat, longs: seq<Slot>, short: Slot)
    requires Put(dir, out, si, longs, short)
    ensures Kept(dir, out) && (Live(out, si + |longs|) <==> !EndBefore(dir, si))
    ensures EndBefore(dir, si) ==> SameListing(dir, out)
    ensures Replaced(dir, out, None, si + |longs|) <==> !EndBefore(dir, si) && Quiet(dir, out, si + |longs|)
  {
    hide Put, Live, EntryOf, Shown, EndBefore;
    var at := si + |longs|;
    PutInside(dir, out, si, longs, short);
    LiveInside(dir, out);
    forall i: nat ensures Live(out, i) <==> (Live(dir, i) || (!EndBefore(dir, si) && (i == at || Shown(dir, out, at, i)))) {
      PutLive(dir, out, si, longs, short, i);
    }
    assert !Live(dir, at) by { PutLive(dir, out, si, longs, short, at); }
    forall i: nat | Live(dir, i) ensures Live(out, i) && EntryAt(out, i) == EntryAt(dir, i) {
      PutKeeps(dir, out, si, longs, short, i);
    }
    forall i: nat | Shown(dir, out, at, i) ensures i != at && !Live(dir, i) {
      ShownNew(dir, out, at, i);
    }
  }

  lemma PutInside(dir: seq<Slot>, out: seq<Slot>, si: nat, longs: seq<Slot>, short: Slot)
    requires Put(dir, out, si, longs, short)
    ensures si + |longs| < |out| && |dir| <= |out| && out[si + |longs|] == short
  {
  }

  lemma ShownNew(dir: seq<Slot>, out: seq<Slot>, at: nat, i: nat)
    requires at < |out| && Shown(dir, out, at, i)
    ensures i != at && !Live(dir, i)
  {
  }

  lemma LiveInside(a: seq<Slot>, b: seq<Slot>)
    ensures forall i: nat :: (Live(a, i) ==> i < |a|) && (Live(b, i) ==> i < |b|)
  {
  }

  lemma DerivedRun(dir: seq<Slot>, name: Name, except: Option<Name>, isDir: bool, cluster: nat, size: nat, t: Stamps)
    requires |name| <= 403 && Derive(dir, name, except).Ok?
    requires cluster < 0x1_0000_0000 && size < 0x1_0000_0000 && StampsOk(t)
    ensures var (short, longs) := Derive(dir, name, except).value; RunOfEntry(longs, ShortSlot(short, isDir, cluster, size, t))
  {
    hide ShortSlot, LongSlots, ShortName, Checksum, UniqueFrom, MakeShort, Shorts, NeedsLong, KindOf, Trim, Listing;
    var (short, longs) := Derive(dir, name, except).value;
    var slot := ShortSlot(short, isDir, cluster, size, t);
    ShortSlotReads(short, isDir, cluster, size, t);
    if NeedsLong(name) {
      UniqueIsFresh(name, Shorts(Listing(dir, 0), except), 1, slot);
      LongsAreLong(Trim(name), Checksum(short));
    } else {
      ShortRoundTrip(name, slot);
    }
  }

  /** Two short names become the same eleven bytes exactly when they fold together once a final dot is dropped. */
  lemma TrailingDotCollides(a: Name, b: Name)
    requires MakeShort(a).Ok? && MakeShort(b).Ok?
    ensures MakeShort(a) == MakeShort(b) <==> EqFold(Trim(a), Trim(b))
  {
    hide MakeShort, Trim, EqFold, ShortName, SplitName, Join, Tidy;
    FoldsAsUpper(Trim(a), Trim(b));
    if MakeShort(a) == MakeShort(b) {
      var slot: Slot := MakeShort(a).value + seq<byte>(21, i => 0);
      ShortRoundTrip(a, slot);
      ShortRoundTrip(b, slot);
    }
    if UpperAll(Trim(a)) == UpperAll(Trim(b)) {
      UpperParts(a);
      UpperParts(b);
      ShortPacked(a);
      ShortPacked(b);
      PackedUpper(SplitName(a).0, SplitName(a).1, SplitName(b).0, SplitName(b).1);
    }
  }

  lemma FoldsAsUpper(a: Name, b: Name)
    ensures EqFold(a, b) <==> UpperAll(a) == UpperAll(b)
  {
    if UpperAll(a) == UpperAll(b) {
      forall i | 0 <= i < |a| ensures Lower(a[i]) == Lower(b[i]) {
        assert UpperAll(a)[i] == UpperAll(b)[i];
      }
    }
  }

  /** The parts of a short name in upper case can be told from what is left of the name. */
  lemma UpperParts(name: Name)
    requires MakeShort(name).Ok?
    ensures var (base, ext) := SplitName(name); (UpperAll(base), UpperAll(ext)) == SplitName(UpperAll(Trim(name)))
  {
    hide MakeShort, SplitName, Trim, Join;
    var (base, ext) := SplitName(name);
    ShortParts(name);
    JoinTrim(name);
    JoinUpper(base, ext);
    UpperNoDot(base);
    UpperNoDot(ext);
    SplitJoin(UpperAll(base), UpperAll(ext));
  }

  lemma UpperNoDot(s: Name)
    requires forall i :: 0 <= i < |s| ==> Plain(s[i]) || Alnum(s[i])
    ensures NoDot(UpperAll(s))
  {
  }

  lemma PackedUpper(base: Name, ext: Name, base': Name, ext': Name)
    requires |base| <= 8 && |ext| <= 3 && |base'| <= 8 && |ext'| <= 3
    requires (forall i :: 0 <= i < |base| ==> Plain(base[i])) && (forall i :: 0 <= i < |ext| ==> Alnum(ext[i]))
    requires (forall i :: 0 <= i < |base'| ==> Plain(base'[i])) && (forall i :: 0 <= i < |ext'| ==> Alnum(ext'[i]))
    requires UpperAll(base) == UpperAll(base') && UpperAll(ext) == UpperAll(ext')
    ensures Packed(base, ext) == Packed(base', ext')
  {
    hide Plain, Alnum;
    var p, q := Packed(base, ext), Packed(base', ext');
    forall i: nat | i < 11 ensures p[i] == q[i] {
      assert i < |base| ==> UpperAll(base)[i] == UpperAll(base')[i];
      assert 8 <= i < 8 + |ext| ==> UpperAll(ext)[i - 8] == UpperAll(ext')[i - 8];
      assert p[i] == PackedByte(base, ext, i) && q[i] == PackedByte(base', ext', i);
    }
  }

  /** A lookup finds the only entry that can answer to a name, if that one does. */
  lemma FindOnly(dir: seq<Slot>, name: Name, at: nat)
    requires Live(dir, at)
    requires forall i: nat :: Live(dir, i) && i != at ==> !Matches(EntryAt(dir, i), name)
    ensures Find(dir, name) == if Matches(EntryAt(dir, at), name) then Some(at) else None
  {
    hide EntryOf, Find, Matches, Live;
    LiveInside(dir, dir);
    FindMeans(dir, name);
  }

  /** The new entry reads as it was meant to, listed or not. */
  lemma NewReads(dir: seq<Slot>, out: seq<Slot>, name: Name, except: Option<Name>, si: nat, isDir: bool, cluster: nat, size: nat, t: Stamps)
    requires |name| <= 403 && Derive(dir, name, except).Ok? && cluster < 0x1_0000_0000 && size < 0x1_0000_0000 && StampsOk(t)
    requires var (short, longs) := Derive(dir, name, except).value; Put(dir, out, si, longs, ShortSlot(short, isDir, cluster, size, t))
    ensures var (short, longs) := Derive(dir, name, except).value; var at := si + |longs|;
      && Carries(out, at, name, cluster, size, isDir) && KindOf(out[at]) == Regular
      && EntryAt(out, at).short == ShortName(ShortSlot(short, isDir, cluster, size, t))
      && Answers(EntryAt(out, at), name)
  {
    hide EntryOf, Derive, ShortSlot, ReadsAs, Answers, Put, KindOf, RunAt, RunOk, ExtendAll, ShortName, RunOfEntry;
    var (short, longs) := Derive(dir, name, except).value;
    var slot := ShortSlot(short, isDir, cluster, size, t);
    PutInside(dir, out, si, longs, slot);
    DerivedReads(dir, name, except, isDir, cluster, size, t);
    PutReads(dir, out, si, longs, slot);
    EntryShort(slot, ExtendAll(CLEAR, longs));
    RunKind(longs, slot);
  }

  lemma RunKind(longs: seq<Slot>, short: Slot)
    requires RunOfEntry(longs, short)
    ensures KindOf(short) == Regular
  {
  }

  /** What a new run of slots for `name` does to a directory where nobody answers to it and where it is all that joins. */
  lemma NewEntry(dir: seq<Slot>, out: seq<Slot>, name: Name, except: Option<Name>, si: nat, isDir: bool, cluster: nat, size: nat, t: Stamps)
    requires |name| <= 403 && Find(dir, name) == None && Derive(dir, name, except).Ok?
    requires cluster < 0x1_0000_0000 && size < 0x1_0000_0000 && StampsOk(t)
    requires var (short, longs) := Derive(dir, name, except).value;
      Put(dir, out, si, longs, ShortSlot(short, isDir, cluster, size, t)) && Replaced(dir, out, None, si + |longs|)
    ensures var (short, longs) := Derive(dir, name, except).value; var at := si + |longs|;
      && at < |out| && NamedAt(out, at, name, cluster, size, isDir)
      && EntryAt(out, at).short == ShortName(ShortSlot(short, isDir, cluster, size, t))
  {
    hide EntryOf, Derive, Listing, RunOfEntry, EqFold, Find, Live, ShortSlot, Matches, NeedsLong, Storable, Trim, Put, Carries;
    var (short, longs) := Derive(dir, name, except).value;
    var slot := ShortSlot(short, isDir, cluster, size, t);
    var at := si + |longs|;
    PutInside(dir, out, si, longs, slot);
    NewReads(dir, out, name, except, si, isDir, cluster, size, t);
    LiveInside(dir, out);
    FindMeans(dir, name);
    forall i: nat | Live(out, i) && i != at ensures !Matches(EntryAt(out, i), name) {
      assert Live(dir, i) && EntryAt(out, i) == EntryAt(dir, i);
    }
    FindOnly(out, name, at);
  }

  /** Whose short name the new entry shares, among all but the one that is to go. */
  lemma NewAlias(dir: seq<Slot>, out: seq<Slot>, name: Name, except: Option<Name>, gone: Option<nat>, at: nat, slot: Slot)
    requires AliasesDistinct(dir) && Find(dir, name) == None && Replaced(dir, out, None, at)
    requires Derive(dir, name, except).Ok? && slot[..11] == Derive(dir, name, except).value.0 && slot[12] == 0
    requires if except.Some? then gone.Some? && Live(dir, gone.value) && EntryAt(dir, gone.value).short == except.value else gone == None
    requires at < |out| && EntryAt(out, at).short == ShortName(slot)
    ensures forall i: nat :: Live(dir, i) && gone != Some(i) ==>
      i < |out| && (EqFold(EntryAt(out, i).short, EntryAt(out, at).short) <==> DotTwin(name, EntryAt(dir, i).short))
  {
    hide EntryOf, Derive, EqFold, Find, Live, Matches, DotTwin;
    LiveInside(dir, out);
    FindMeans(dir, name);
    forall i: nat | Live(dir, i) && gone != Some(i)
      ensures i < |out| && (EqFold(EntryAt(out, i).short, EntryAt(out, at).short) <==> DotTwin(name, EntryAt(dir, i).short))
    {
      assert Live(out, i) && EntryAt(out, i) == EntryAt(dir, i);
      DerivedAlias(dir, name, except, slot, i);
    }
  }

  lemma EntryShort(s: Slot, run: Run)
    requires RunOk(run)
    ensures EntryOf(s, run).short == ShortName(s)
  {
  }

  /** The listing lost the entry at `gone`; the rest reads as before. */
  ghost predicate Dropped(before: seq<Slot>, after: seq<Slot>, gone: nat) {
    && (forall i: nat :: Live(after, i) <==> Live(before, i) && i != gone)
    && (forall i: nat :: Live(before, i) && i != gone ==> EntryAt(after, i) == EntryAt(before, i))
  }

  lemma RemovedReplaces(dir: seq<Slot>, lo: nat, gone: nat)
    requires Live(dir, gone) && lo <= gone
    ensures Dropped(dir, Removed(dir, lo, gone), gone)
  {
    hide Removed, Live, EntryOf;
    LiveInside(dir, dir);
    forall i: nat ensures Live(Removed(dir, lo, gone), i) <==> Live(dir, i) && i != gone {
      RemovedLive(dir, lo, gone, i);
    }
    forall i: nat | Live(dir, i) && i != gone ensures EntryAt(Removed(dir, lo, gone), i) == EntryAt(dir, i) {
      LiveSlot(dir, i);
      LiveSlot(dir, gone);
      RemovedKeeps(dir, lo, gone, i);
    }
  }

  /** Short names stay distinct exactly when the new one is shared with no entry that stays. */
  lemma StillDistinct(dir: seq<Slot>, out: seq<Slot>, name: Name, gone: Option<nat>, at: nat)
    requires AliasesDistinct(dir) && Replaced(dir, out, gone, at) && at < |out|
    requires forall i: nat :: Live(dir, i) && gone != Some(i) ==>
      i < |out| && (EqFold(EntryAt(out, i).short, EntryAt(out, at).short) <==> DotTwin(name, EntryAt(dir, i).short))
    ensures AliasesDistinct(out) <==> !DotClash(dir, name, gone)
  {
    hide Live, EntryOf, EqFold, DotTwin;
    LiveInside(dir, out);
    FoldSymmetric();
    if DotClash(dir, name, gone) {
      var i: nat :| Live(dir, i) && gone != Some(i) && DotTwin(name, EntryAt(dir, i).short);
      assert Live(out, i) && Live(out, at) && i != at;
    }
  }

  lemma FoldSymmetric()
    ensures forall a: Name, b: Name :: EqFold(a, b) ==> EqFold(b, a)
  {
  }

  /** Where the cluster of slot `i` begins. */
  function ClusterStart(per: nat, i: nat): (lo: nat)
    requires 0 < per
    ensures lo <= i
  {
    BaseIs(per, i / per);
    Base(per, i / per)
  }

  /** What creating or renaming wrote: where, and into what. */
  ghost predicate Lies(before: seq<Slot>, after: seq<Slot>, per: nat, at: nat, longs: nat, extra: Option<seq<Slot>>) {
    if Crowded(before, per, longs + 1) then
      && extra.Some? && |after| == |before| + per && at == |before| + longs && at < |after|
      && longs + 1 <= |extra.value| && after[at + 1..] == extra.value[longs + 1..]
    else
      && |after| == |before| && longs <= at < |after| && FirstFit(before, per, at - longs, longs + 1)
      && (Stop(before, 0) <= at ==> after[at + 1..] == before[at + 1..])
  }

  /** The slots behind a new entry: the directory's own, or those its further cluster came with. */
  function Behind(dir: seq<Slot>, at: nat, longs: nat, extra: Option<seq<Slot>>): seq<Slot> {
    if at < |dir| then dir[at + 1..]
    else if extra.Some? && longs < |extra.value| then extra.value[longs + 1..]
    else []
  }

  /**
   A new entry in slot `at` is listed and is all that joins the listing: no end marker lies in
   front of it, and the directory goes on behind it or has nothing to list there.
   */
  ghost predicate Alone(dir: seq<Slot>, at: nat, longs: nat, extra: Option<seq<Slot>>) {
    && longs <= at && !EndBefore(dir, at - longs)
    && (at < Stop(dir, 0) || Barren(Behind(dir, at, longs, extra)))
  }

  /** The further cluster, if one was needed, holds nothing but end markers behind the new entry. */
  ghost predicate GrownBlank(dir: seq<Slot>, at: nat, longs: nat, extra: Option<seq<Slot>>) {
    |dir| <= at ==> Blank(Behind(dir, at, longs, extra))
  }

  /** The slots with a run written so that its short entry is in slot `at`. */
  function Written(dir: seq<Slot>, at: nat, run: seq<Slot>, extra: Option<seq<Slot>>): (out: seq<Slot>) {
    var room := if |dir| <= at && extra.Some? then dir + extra.value else dir;
    if |run| <= at + 1 <= |room| then Placed(room, at + 1 - |run|, run) else room
  }

  /** `after` is `before` with the slots of an entry written, and nothing else. */
  ghost predicate Entered(before: seq<Slot>, after: seq<Slot>, at: nat, name: Name, except: Option<Name>,
                          e: (nat, nat, bool), t: Stamps, extra: Option<seq<Slot>>) {
    && Derive(before, name, except).Ok? && e.0 < 0x1_0000_0000 && e.1 < 0x1_0000_0000 && StampsOk(t)
    && var (short, longs) := Derive(before, name, except).value;
       after == Written(before, at, longs + [ShortSlot(short, e.2, e.0, e.1, t)], extra)
  }

  class Folder {
    const per: nat
    var slots: seq<Slot>

    ghost predicate Valid()
      reads this
    {
      WellFormed(slots, per)
    }

    constructor (per: nat, slots: seq<Slot>)
      requires WellFormed(slots, per)
      ensures Valid() && this.slots == slots && this.per == per
    {
      this.per, this.slots := per, slots;
    }

    method Lookup(name: Name) returns (r: Option<nat>)
      ensures r == Find(slots, name)
    {
      var list := ScanDir(slots);
      r := FindIn(list, name);
    }

    /** Copy a run and its short entry into the cluster buffer. */
    method WriteRun(si: nat, longs: seq<Slot>, short: Slot)
      requires si + |longs| + 1 <= |slots|
      modifies this`slots
      ensures slots == Placed(old(slots), si, longs + [short])
    {
      var k := 0;
      while k < |longs|
        invariant k <= |longs| && |slots| == |old(slots)|
        invariant forall i :: 0 <= i < |slots| ==> slots[i] == if si <= i < si + k then longs[i - si] else old(slots)[i]
      {
        slots := slots[si + k := longs[k]];
        k := k + 1;
      }
      slots := slots[si + |longs| := short];
    }

    /**
     Reserve slots in a row inside one cluster and write a run there. A directory without room
     gets one more cluster, with whatever that cluster held; `extra` is None on a full volume.
     */
    method PlaceRun(longs: seq<Slot>, short: Slot, extra: Option<seq<Slot>>) returns (r: Result<nat>)
      requires Valid() && RunOfEntry(longs, short) && |longs| < per && (extra.Some? ==> |extra.value| == per)
      modifies this`slots
      ensures r.Err? <==> Crowded(old(slots), per, |longs| + 1) && extra.None?
      ensures r.Err? ==> r.error == NoSpace && slots == old(slots)
      ensures r.Ok? ==> Put(old(slots), slots, r.value, longs, short) && Lies(old(slots), slots, per, r.value + |longs|, |longs|, extra)
      ensures r.Ok? ==> slots == Written(old(slots), r.value + |longs|, longs + [short], extra)
      ensures r.Ok? ==> (Valid() <==> |slots| == |old(slots)| || LeadsOn(slots[r.value + |longs| + 1..]))
    {
      hide Crowded, FirstFit, RunOfEntry, LeadsOn, Fits, InOne, Put, Placed, Stop, WellFormed, Lies, Written, KindOf;
      ValidShape(slots, per);
      ghost var dir := slots;
      var si := AllocRun(slots, per, |longs| + 1);
      if si.Some? {
        FitFacts(dir, per, si.value, |longs| + 1);
        WriteRun(si.value, longs, short);
        PutPlaced(dir, si.value, longs, short);
        PutWellFormed(dir, slots, per, si.value, longs, short);
        WrittenHere(dir, per, si.value, longs, short, extra);
        return Ok(si.value);
      }
      if extra.None? { return Err(NoSpace); }
      var end := |slots|;
      slots := slots + extra.value;
      WriteRun(end, longs, short);
      PutBehind(dir, extra.value, longs, short);
      LastCluster(dir, per, |longs| + 1);
      PutWellFormed(dir, slots, per, |dir|, longs, short);
      WrittenBehind(dir, per, longs, short, extra.value);
      return Ok(end);
    }

    /** Mark an entry and the long slots right in front of it, in its cluster, deleted. */
    method RemoveDirSlots(at: nat)
      requires at < |slots| && 0 < per
      modifies this`slots
      ensures slots == Removed(old(slots), ClusterStart(per, at), at)
    {
      hide BlockStart, Erase, Base;
      BaseIs(per, at / per);
      var base := at / per * per;
      slots := slots[at := Erase(slots[at])];
      var back := at;
      while back > base && slots[back - 1][11] == ATTR_LFN
        invariant base <= back <= at && |slots| == |old(slots)| && BlockStart(old(slots), base, at) <= back
        invariant forall i :: 0 <= i < |slots| ==> slots[i] == if back <= i <= at then Erase(old(slots)[i]) else old(slots)[i]
      {
        back := back - 1;
        slots := slots[back := Erase(slots[back])];
      }
    }

    /**
     Create an entry: its slots are written and nothing else. Every entry that was listed reads as
     before. The new one is listed exactly when no end marker lies in front of its slots, and is
     all that joins the listing exactly when, besides, nothing to list lies behind it; then it alone
     may answer to the name, and short names stay distinct exactly when no entry has the name
     without its final dot. A directory with nothing behind its end marker stays that way.
     */
    method CreateEntry(name: Name, cluster: nat, isDir: bool, t: Stamps, extra: Option<seq<Slot>>) returns (r: Result<nat>)
      requires Valid() && |name| <= 403 && LongCount(name) < per && (extra.Some? ==> |extra.value| == per)
      requires Find(slots, name) == None && cluster < 0x1_0000_0000 && StampsOk(t)
      modifies this`slots
      ensures r.Err? ==> slots == old(slots)
      ensures r.Err? <==> 47 in name || 92 in name || NoPlace(old(slots), per, name, None, extra.None?)
      ensures r.Ok? ==> Lies(old(slots), slots, per, r.value, LongCount(name), extra)
      ensures Valid() <==> |slots| == |old(slots)| || LeadsOn(slots[r.value + 1..])
      ensures r.Ok? ==> Entered(old(slots), slots, r.value, name, None, (cluster, 0, isDir), t, extra) && Carries(slots, r.value, name, cluster, 0, isDir)
      ensures r.Ok? ==> Joined(old(slots), slots, r.value, name, extra)
      ensures r.Ok? && Alone(old(slots), r.value, LongCount(name), extra) ==>
        && NamedAt(slots, r.value, name, cluster, 0, isDir)
        && (AliasesDistinct(old(slots)) ==> (AliasesDistinct(slots) <==> !DotClash(old(slots), name, None)))
      ensures r.Ok? && Tight(old(slots)) && Live(slots, r.value) && GrownBlank(old(slots), r.value, LongCount(name), extra) ==>
        Tight(slots) && Alone(old(slots), r.value, LongCount(name), extra)
      ensures r.Ok? && Tight(old(slots)) && |slots| == |old(slots)| == per ==> Tight(slots) && Alone(old(slots), r.value, LongCount(name), extra)
    {
      hide WellFormed, EntryOf, Live, EqFold, Find, Derive, Replaced, NamedAt, Placed, AliasesDistinct, DotClash, ShortSlot, Crowded, FirstFit, LeadsOn, Put,
           RunOfEntry, Kept, SameListing, EndBefore, Quiet, Tight, LongCount, Lies, Alone, GrownBlank, Carries, Written, RunAt, Joined;
      if 47 in name || 92 in name { return Err(NotSupported); }
      var d := DeriveName(name, None);
      if d.Err? { return Err(d.error); }
      var (short, longs) := d.value;
      DerivedCount(slots, name, None);
      ghost var dir := slots;
      DerivedRun(dir, name, None, isDir, cluster, 0, t);
      var si := PlaceRun(longs, ShortSlot(short, isDir, cluster, 0, t), extra);
      if si.Err? { return Err(si.error); }
      Created(dir, slots, per, name, si.value, isDir, cluster, t, extra);
      StaysTight(dir, slots, per, si.value, longs, ShortSlot(short, isDir, cluster, 0, t), extra);
      return Ok(si.value + |longs|);
    }

    method DeriveName(name: Name, except: Option<Name>) returns (r: Result<(seq<byte>, seq<Slot>)>)
      ensures r == Derive(slots, name, except)
    {
      if NeedsLong(name) {
        var list := ScanDir(slots);
        var short := MakeUniqueShort(name, Shorts(list, except));
        if short.Err? { return Err(short.error); }
        return Ok((short.value, LongSlots(Trim(name), Checksum(short.value))));
      }
      var short := MakeShort(name);
      if short.Err? { return Err(short.error); }
      return Ok((short.value, []));
    }

    /** Remove a file by name: its slots are marked deleted, and exactly that entry leaves the listing. */
    method Unlink(name: Name) returns (r: Result<nat>)
      requires Valid()
      modifies this`slots
      ensures Valid()
      ensures r.Err? ==> slots == old(slots)
      ensures r.Err? <==> Find(old(slots), name) == None || EntryAt(old(slots), Find(old(slots), name).value).isDir
      ensures r.Ok? ==> Find(old(slots), name) == Some(r.value)
      ensures r.Ok? ==> 0 < per && slots == Removed(old(slots), ClusterStart(per, r.value), r.value) && Dropped(old(slots), slots, r.value)
      ensures Tight(old(slots)) ==> Tight(slots)
    {
      hide EntryOf, Live, EqFold, Find, Removed, Dropped, WellFormed, ClusterStart, RunAt, Matches, Tight;
      PerPositive(slots, per);
      FindMeans(slots, name);
      LiveInside(slots, slots);
      var at := Lookup(name);
      if at.None? { return Err(NotFound); }
      if EntryAt(slots, at.value).isDir { return Err(IsDir); }
      RemovedReplaces(slots, ClusterStart(per, at.value), at.value);
      MovedWellFormed(slots, per, at.value);
      if Tight(slots) { RemovedTight(slots, ClusterStart(per, at.value), at.value); }
      RemoveDirSlots(at.value);
      return Ok(at.value);
    }

    /**
     Rename inside the directory: the entry moves to a fresh run under its new name with its
     cluster, size and kind; every other entry reads as before.
     */
    method Rename(from: Name, to: Name, t: Stamps, extra: Option<seq<Slot>>) returns (r: Result<nat>)
      requires Valid() && |to| <= 403 && LongCount(to) < per && StampsOk(t) && (extra.Some? ==> |extra.value| == per)
      modifies this`slots
      ensures r.Err? ==> slots == old(slots)
      ensures r == Err(NotFound) <==> Find(old(slots), from) == None
      ensures Find(old(slots), from).Some? ==> (r.Err? <==>
        if Find(old(slots), to).Some? then Find(old(slots), to) != Find(old(slots), from)
        else NoPlace(old(slots), per, to, Some(EntryAt(old(slots), Find(old(slots), from).value).short), extra.None?))
      ensures r.Ok? ==> Find(old(slots), from).Some? && var was := Find(old(slots), from).value;
        if Find(old(slots), to) == Some(was) then slots == old(slots) && r.value == was
        else
          && Find(old(slots), to) == None && Lies(old(slots), slots, per, r.value, LongCount(to), extra)
          && Renamed(old(slots), slots, was, r.value, to, extra) && Relocated(old(slots), slots, per, was, r.value, to, t, extra)
      ensures r.Ok? && Tight(old(slots)) && Live(slots, r.value) && GrownBlank(old(slots), r.value, LongCount(to), extra) ==>
        Tight(slots) && (Find(old(slots), to) == None ==> Alone(old(slots), r.value, LongCount(to), extra))
      ensures r.Ok? && Tight(old(slots)) && |slots| == |old(slots)| == per ==>
        Tight(slots) && (Find(old(slots), to) == None ==> Alone(old(slots), r.value, LongCount(to), extra))
      ensures (r.Ok? && |slots| > |old(slots)| ==> LeadsOn(slots[r.value + 1..])) ==> Valid()
    {
      hide WellFormed, EntryOf, Live, EqFold, Find, Renamed, Matches, Lies, LeadsOn, NoPlace, LongCount, Relocated, Tight, Alone, GrownBlank, RunAt;
      FindMeans(slots, from);
      LiveInside(slots, slots);
      var was := Lookup(from);
      if was.None? { return Err(NotFound); }
      var dst := Lookup(to);
      if dst.Some? {
        if dst == was { return Ok(was.value); }
        return Err(Exists);
      }
      r := Move(was.value, to, t, extra);
    }

    method Move(was: nat, to: Name, t: Stamps, extra: Option<seq<Slot>>) returns (r: Result<nat>)
      requires Valid() && |to| <= 403 && LongCount(to) < per && StampsOk(t) && (extra.Some? ==> |extra.value| == per)
      requires Live(slots, was) && Find(slots, to) == None
      modifies this`slots
      ensures r.Err? ==> slots == old(slots)
      ensures r.Err? ==> r.error != NotFound
      ensures r.Err? <==> NoPlace(old(slots), per, to, Some(EntryAt(old(slots), was).short), extra.None?)
      ensures r.Ok? ==> Lies(old(slots), slots, per, r.value, LongCount(to), extra) && Renamed(old(slots), slots, was, r.value, to, extra)
      ensures r.Ok? ==> Relocated(old(slots), slots, per, was, r.value, to, t, extra)
      ensures r.Ok? && Tight(old(slots)) && Live(slots, r.value) && GrownBlank(old(slots), r.value, LongCount(to), extra) ==>
        Tight(slots) && Alone(old(slots), r.value, LongCount(to), extra)
      ensures r.Ok? && Tight(old(slots)) && |slots| == |old(slots)| == per ==> Tight(slots) && Alone(old(slots), r.value, LongCount(to), extra)
      ensures (r.Ok? && |slots| > |old(slots)| ==> LeadsOn(slots[r.value + 1..])) ==> Valid()
    {
      hide EntryOf, Live, EqFold, Find, Derive, Renamed, Placed, Removed, ShortSlot, Crowded, LeadsOn, Put, RunOfEntry, LongCount, FirstFit, WellFormed,
           Lies, ClusterStart, RunAt, StampsOk, Tight, Alone, GrownBlank, Written, Relocated, RunOk, NeedsLong, Shorts;
      LiveInside(slots, slots);
      PerPositive(slots, per);
      var e := EntryAt(slots, was);
      EntryBounds(slots[was], RunAt(slots, was));
      var d := DeriveName(to, Some(e.short));
      if d.Err? { return Err(d.error); }
      var (short, longs) := d.value;
      ghost var dir := slots;
      DerivedCount(dir, to, Some(e.short));
      DerivedRun(dir, to, Some(e.short), e.isDir, e.cluster, e.size, t);
      var si := PlaceRun(longs, ShortSlot(short, e.isDir, e.cluster, e.size, t), extra);
      if si.Err? { return Err(si.error); }
      ghost var mid := slots;
      Moved(dir, mid, per, to, was, si.value, t, extra);
      StaysTight(dir, mid, per, si.value, longs, ShortSlot(short, e.isDir, e.cluster, e.size, t), extra);
      MovedTight(mid, per, was);
      RelocatedIs(dir, mid, per, was, si.value + |longs|, to, t, extra);
      RemoveDirSlots(was);
      return Ok(si.value + |longs|);
    }
  }

  lemma PerPositive(dir: seq<Slot>, per: nat)
    requires WellFormed(dir, per)
    ensures 0 < per
  {
  }

  lemma ValidShape(dir: seq<Slot>, per: nat)
    requires WellFormed(dir, per)
    ensures 0 < per && LeadsOn(dir) && exists n: nat :: |dir| == Base(per, n)
  {
  }

  lemma WrittenHere(dir: seq<Slot>, per: nat, si: nat, longs: seq<Slot>, short: Slot, extra: Option<seq<Slot>>)
    requires FirstFit(dir, per, si, |longs| + 1) && si + |longs| < |dir|
    ensures var out := Placed(dir, si, longs + [short]);
      Lies(dir, out, per, si + |longs|, |longs|, extra) && out == Written(dir, si + |longs|, longs + [short], extra)
  {
    FitFacts(dir, per, si, |longs| + 1);
    hide FirstFit, Crowded, Fits, InOne, Stop;
  }

  lemma WrittenBehind(dir: seq<Slot>, per: nat, longs: seq<Slot>, short: Slot, extra: seq<Slot>)
    requires Crowded(dir, per, |longs| + 1) && |extra| == per && |longs| < per
    ensures var out := Placed(dir + extra, |dir|, longs + [short]);
      Lies(dir, out, per, |dir| + |longs|, |longs|, Some(extra)) && out == Written(dir, |dir| + |longs|, longs + [short], Some(extra))
  {
    hide FirstFit, Crowded, Stop;
    var out := Placed(dir + extra, |dir|, longs + [short]);
    assert out[|dir| + |longs| + 1..] == extra[|longs| + 1..];
  }

  lemma FitFacts(dir: seq<Slot>, per: nat, si: nat, need: nat)
    requires FirstFit(dir, per, si, need) && 0 < need
    ensures si + need <= |dir| && Fits(dir, si, need) && InOne(per, si, need) && !Crowded(dir, per, need)
  {
    hide InOne, IsFree;
  }

  /** The run at the start of one more cluster lies in that cluster. */
  lemma LastCluster(dir: seq<Slot>, per: nat, need: nat)
    requires WellFormed(dir, per) && need <= per
    ensures InOne(per, |dir|, need)
  {
    hide LeadsOn;
    var n: nat :| |dir| == Base(per, n);
    InCluster(per, n, |dir|, need);
  }

  lemma DerivedCount(dir: seq<Slot>, name: Name, except: Option<Name>)
    requires Derive(dir, name, except).Ok?
    ensures |Derive(dir, name, except).value.1| == LongCount(name)
  {
    hide UniqueFrom, MakeShort, NeedsLong, Listing, Trim, Checksum;
  }

  /** In a tight directory of one cluster a place with room is never behind the end marker. */
  lemma TightPlace(dir: seq<Slot>, per: nat, si: nat, need: nat)
    requires Tight(dir) && |dir| == per && FirstFit(dir, per, si, need)
    ensures !EndBefore(dir, si)
  {
    var e := Stop(dir, 0);
    assert Base(per, 0) == 0;
    InCluster(per, 0, if e < si then e else si, need);
    assert si <= e || Fits(dir, e, need);
  }

  /** What lies behind a new entry, unless the directory went on there. */
  lemma LiesBefore(dir: seq<Slot>, out: seq<Slot>, per: nat, at: nat, longs: nat, extra: Option<seq<Slot>>)
    requires Lies(dir, out, per, at, longs, extra) && 0 < per
    ensures longs <= at < |out| && (Stop(dir, 0) <= at ==> out[at + 1..] == Behind(dir, at, longs, extra)) && (|out| > |dir| <==> |dir| <= at)
  {
    hide Crowded, FirstFit, Stop;
  }

  lemma QuietAlone(dir: seq<Slot>, out: seq<Slot>, per: nat, at: nat, longs: nat, extra: Option<seq<Slot>>)
    requires Lies(dir, out, per, at, longs, extra) && 0 < per
    ensures longs <= at < |out|
    ensures Alone(dir, at, longs, extra) <==> !EndBefore(dir, at - longs) && Quiet(dir, out, at)
  {
    hide Lies, EndBefore, Quiet, Barren, Behind;
    LiesBefore(dir, out, per, at, longs, extra);
    QuietBarren(dir, out, at);
  }

  /** A directory with nothing behind its end marker stays that way if the new entry is listed. */
  lemma StaysTight(dir: seq<Slot>, out: seq<Slot>, per: nat, si: nat, longs: seq<Slot>, short: Slot, extra: Option<seq<Slot>>)
    requires Put(dir, out, si, longs, short) && Lies(dir, out, per, si + |longs|, |longs|, extra) && 0 < per
    ensures si + |longs| < |out|
    ensures Tight(dir) && Live(out, si + |longs|) && GrownBlank(dir, si + |longs|, |longs|, extra) ==>
      Tight(out) && Alone(dir, si + |longs|, |longs|, extra)
    ensures Tight(dir) && |out| == |dir| == per ==> Tight(out) && Alone(dir, si + |longs|, |longs|, extra)
  {
    hide Put, Live, Lies, EndBefore, Quiet, Alone, Behind, Tight, EntryOf, Stop;
    var at := si + |longs|;
    LiesBefore(dir, out, per, at, |longs|, extra);
    QuietAlone(dir, out, per, at, |longs|, extra);
    PutReplaces(dir, out, si, longs, short);
    if Tight(dir) {
      if |out| == |dir| == per && EndBefore(dir, si) {
        LiesFits(dir, out, per, at, |longs|, extra);
        TightPlace(dir, per, si, |longs| + 1);
      }
      if !EndBefore(dir, si) && GrownBlank(dir, at, |longs|, extra) {
        PutEnds(dir, out, si, longs, short);
        PutTight(dir, out, si, longs, short);
      }
    }
  }

  lemma LiesFits(dir: seq<Slot>, out: seq<Slot>, per: nat, at: nat, longs: nat, extra: Option<seq<Slot>>)
    requires Lies(dir, out, per, at, longs, extra) && 0 < per && |out| == |dir|
    ensures longs <= at && FirstFit(dir, per, at - longs, longs + 1)
  {
    hide Crowded, FirstFit, Stop;
  }

  lemma PutEnds(dir: seq<Slot>, out: seq<Slot>, si: nat, longs: seq<Slot>, short: Slot)
    requires Put(dir, out, si, longs, short) && !EndBefore(dir, si)
    ensures |out| > |dir| ==> Stop(dir, 0) <= si + |longs|
  {
  }

  lemma MovedTight(mid: seq<Slot>, per: nat, was: nat)
    requires 0 < per && Live(mid, was)
    ensures was < |mid| && (Tight(mid) ==> Tight(Removed(mid, ClusterStart(per, was), was)))
  {
    hide Live, Removed, Tight, ClusterStart;
    LiveInside(mid, mid);
    if Tight(mid) { RemovedTight(mid, ClusterStart(per, was), was); }
  }

  /** What creating does to the listing. */
  ghost predicate Joined(before: seq<Slot>, after: seq<Slot>, at: nat, name: Name, extra: Option<seq<Slot>>) {
    && LongCount(name) <= at < |after| && Kept(before, after)
    && (Live(after, at) <==> !EndBefore(before, at - LongCount(name)))
    && (!Live(after, at) ==> SameListing(before, after))
    && (Replaced(before, after, None, at) <==> Alone(before, at, LongCount(name), extra))
  }

  lemma Created(dir: seq<Slot>, out: seq<Slot>, per: nat, name: Name, si: nat, isDir: bool, cluster: nat, t: Stamps, extra: Option<seq<Slot>>)
    requires |name| <= 403 && Find(dir, name) == None && Derive(dir, name, None).Ok? && cluster < 0x1_0000_0000 && StampsOk(t)
    requires var (short, longs) := Derive(dir, name, None).value; Put(dir, out, si, longs, ShortSlot(short, isDir, cluster, 0, t))
    requires var longs := |Derive(dir, name, None).value.1|; Lies(dir, out, per, si + longs, longs, extra) && 0 < per
    ensures var at := si + |Derive(dir, name, None).value.1|;
      && Joined(dir, out, at, name, extra) && Carries(out, at, name, cluster, 0, isDir)
      && (Alone(dir, at, LongCount(name), extra) ==> NamedAt(out, at, name, cluster, 0, isDir))
      && (Alone(dir, at, LongCount(name), extra) && AliasesDistinct(dir) ==> (AliasesDistinct(out) <==> !DotClash(dir, name, None)))
  {
    hide EntryOf, Live, EqFold, Find, Derive, Replaced, NamedAt, AliasesDistinct, DotClash, ShortSlot, Put, EndBefore, Quiet, Kept, SameListing, LongCount,
         Lies, Alone, Carries;
    var (short, longs) := Derive(dir, name, None).value;
    var slot, at := ShortSlot(short, isDir, cluster, 0, t), si + |longs|;
    DerivedCount(dir, name, None);
    PutInside(dir, out, si, longs, slot);
    PutReplaces(dir, out, si, longs, slot);
    QuietAlone(dir, out, per, at, |longs|, extra);
    NewReads(dir, out, name, None, si, isDir, cluster, 0, t);
    if Replaced(dir, out, None, at) {
      NewEntry(dir, out, name, None, si, isDir, cluster, 0, t);
      if AliasesDistinct(dir) {
        ShortSlotReads(short, isDir, cluster, 0, t);
        NewAlias(dir, out, name, None, None, at, slot);
        StillDistinct(dir, out, name, None, at);
      }
    }
  }

  /**
   A rename seen from outside: every other entry reads as before and the old name is gone. The
   new one is there exactly when no end marker lies in front of its slots; otherwise the file has
   left the listing.
   */
  ghost predicate Renamed(before: seq<Slot>, after: seq<Slot>, was: nat, at: nat, to: Name, extra: Option<seq<Slot>>)
    requires was < |before|
  {
    && LongCount(to) <= at < |after|
    && (var e := EntryAt(before, was); Carries(after, at, to, e.cluster, e.size, e.isDir))
    && (Live(after, at) <==> !EndBefore(before, at - LongCount(to)))
    && (!Live(after, at) ==> Dropped(before, after, was))
    && (Replaced(before, after, Some(was), at) <==> Alone(before, at, LongCount(to), extra))
    && (forall i: nat :: Live(before, i) && i != was ==> Live(after, i) && EntryAt(after, i) == EntryAt(before, i))
    && !Live(after, was)
    && (Alone(before, at, LongCount(to), extra) ==>
          && (var e := EntryAt(before, was); NamedAt(after, at, to, e.cluster, e.size, e.isDir))
          && (AliasesDistinct(before) ==> (AliasesDistinct(after) <==> !DotClash(before, to, Some(was)))))
  }

  /** `after` is `before` with the slots of the new name written and those of the old entry marked deleted. */
  ghost predicate Relocated(before: seq<Slot>, after: seq<Slot>, per: nat, was: nat, at: nat, to: Name, t: Stamps, extra: Option<seq<Slot>>)
    requires was < |before| && 0 < per
  {
    var e := EntryAt(before, was);
    exists mid: seq<Slot> :: Entered(before, mid, at, to, Some(e.short), (e.cluster, e.size, e.isDir), t, extra) && was < |mid|
      && after == Removed(mid, ClusterStart(per, was), was)
  }

  lemma RelocatedIs(dir: seq<Slot>, mid: seq<Slot>, per: nat, was: nat, at: nat, to: Name, t: Stamps, extra: Option<seq<Slot>>)
    requires was < |dir| && was < |mid| && 0 < per && StampsOk(t)
    requires var e := EntryAt(dir, was); var d := Derive(dir, to, Some(e.short));
      && d.Ok? && e.cluster < 0x1_0000_0000 && e.size < 0x1_0000_0000
      && mid == Written(dir, at, d.value.1 + [ShortSlot(d.value.0, e.isDir, e.cluster, e.size, t)], extra)
    ensures Relocated(dir, Removed(mid, ClusterStart(per, was), was), per, was, at, to, t, extra)
  {
    hide EntryOf, Derive, Removed, ClusterStart, Written, ShortSlot, RunAt;
    var e := EntryAt(dir, was);
    assert Entered(dir, mid, at, to, Some(e.short), (e.cluster, e.size, e.isDir), t, extra);
  }

  /** The new run first (`dir` to `mid`), then the old slots are freed. */
  lemma Moved(dir: seq<Slot>, mid: seq<Slot>, per: nat, to: Name, was: nat, si: nat, t: Stamps, extra: Option<seq<Slot>>)
    requires WellFormed(dir, per) && |to| <= 403 && StampsOk(t) && Live(dir, was) && Find(dir, to) == None
    requires Derive(dir, to, Some(EntryAt(dir, was).short)).Ok?
    requires var e := EntryAt(dir, was); var (short, longs) := Derive(dir, to, Some(e.short)).value;
      && e.cluster < 0x1_0000_0000 && e.size < 0x1_0000_0000
      && Put(dir, mid, si, longs, ShortSlot(short, e.isDir, e.cluster, e.size, t)) && Lies(dir, mid, per, si + |longs|, |longs|, extra)
    ensures var longs := |Derive(dir, to, Some(EntryAt(dir, was).short)).value.1|; var at := si + longs;
      && was < |mid| && at < |mid| && |dir| <= |mid| && was != at && Live(mid, was)
      && var out := Removed(mid, ClusterStart(per, was), was);
         && Renamed(dir, out, was, at, to, extra) && Lies(dir, out, per, at, longs, extra) && (Live(out, at) <==> Live(mid, at))
         && (WellFormed(mid, per) ==> WellFormed(out, per))
         && (|mid| > |dir| ==> out[at + 1..] == mid[at + 1..])
  {
    hide EntryOf, Live, EqFold, Find, Derive, Removed, ShortSlot, Put, LeadsOn, LongCount, EndBefore, Quiet, Kept, SameListing, Replaced,
         NamedAt, AliasesDistinct, DotClash, Dropped, ClusterStart, RunAt, Lies, Alone, Carries, WellFormed, KindOf;
    PerPositive(dir, per);
    LiveInside(dir, mid);
    var e := EntryAt(dir, was);
    var (short, longs) := Derive(dir, to, Some(e.short)).value;
    var slot, at := ShortSlot(short, e.isDir, e.cluster, e.size, t), si + |longs|;
    DerivedCount(dir, to, Some(e.short));
    PutInside(dir, mid, si, longs, slot);
    PutReplaces(dir, mid, si, longs, slot);
    PutKeeps(dir, mid, si, longs, slot, was);
    PutLive(dir, mid, si, longs, slot, at);
    var lo := ClusterStart(per, was);
    var out := Removed(mid, lo, was);
    RemovedReplaces(mid, lo, was);
    if WellFormed(mid, per) { MovedWellFormed(mid, per, was); }
    MovedTail(dir, mid, per, lo, was, si, longs, slot, extra);
    QuietAlone(dir, mid, per, at, |longs|, extra);
    NewReads(dir, mid, to, Some(e.short), si, e.isDir, e.cluster, e.size, t);
    MovedCarries(mid, lo, to, was, at, e);
    MovedFrame(dir, mid, out, was, at, EndBefore(dir, si));
    if Replaced(dir, mid, None, at) { MovedNames(dir, mid, lo, to, was, si, t); }
  }

  lemma MovedNames(dir: seq<Slot>, mid: seq<Slot>, lo: nat, to: Name, was: nat, si: nat, t: Stamps)
    requires |to| <= 403 && StampsOk(t) && Live(dir, was) && Live(mid, was) && Find(dir, to) == None && lo <= was < |mid|
    requires Derive(dir, to, Some(EntryAt(dir, was).short)).Ok?
    requires var e := EntryAt(dir, was); var (short, longs) := Derive(dir, to, Some(e.short)).value; var at := si + |longs|;
      && e.cluster < 0x1_0000_0000 && e.size < 0x1_0000_0000 && at != was && at < |mid|
      && Put(dir, mid, si, longs, ShortSlot(short, e.isDir, e.cluster, e.size, t))
      && Replaced(dir, mid, None, at) && Replaced(dir, Removed(mid, lo, was), Some(was), at)
    ensures var e := EntryAt(dir, was); var at := si + |Derive(dir, to, Some(e.short)).value.1|; var out := Removed(mid, lo, was);
      && NamedAt(out, at, to, e.cluster, e.size, e.isDir)
      && (AliasesDistinct(dir) ==> (AliasesDistinct(out) <==> !DotClash(dir, to, Some(was))))
  {
    hide EntryOf, Live, EqFold, Find, Derive, Removed, ShortSlot, Put, Replaced, NamedAt, AliasesDistinct, DotClash, RunAt, KindOf, RunOk, ShortName, DotTwin;
    LiveInside(dir, mid);
    var e := EntryAt(dir, was);
    var (short, longs) := Derive(dir, to, Some(e.short)).value;
    var slot, at := ShortSlot(short, e.isDir, e.cluster, e.size, t), si + |longs|;
    NewEntry(dir, mid, to, Some(e.short), si, e.isDir, e.cluster, e.size, t);
    MovedNamed(mid, lo, to, was, at, e);
    if AliasesDistinct(dir) {
      ShortSlotReads(short, e.isDir, e.cluster, e.size, t);
      NewAlias(dir, mid, to, Some(e.short), Some(was), at, slot);
      MovedDistinct(dir, mid, lo, to, was, at);
    }
  }

  lemma MovedWellFormed(mid: seq<Slot>, per: nat, was: nat)
    requires WellFormed(mid, per) && Live(mid, was)
    ensures was < |mid| && WellFormed(Removed(mid, ClusterStart(per, was), was), per)
  {
    hide LeadsOn, Live, Removed;
    LiveInside(mid, mid);
    assert ClusterStart(per, was) == Base(per, was / per);
    RemovedWellFormed(mid, per, was / per, was);
  }

  /** Freeing the old slots changes nothing behind the new ones that matters. */
  lemma MovedTail(dir: seq<Slot>, mid: seq<Slot>, per: nat, lo: nat, was: nat, si: nat, longs: seq<Slot>, short: Slot, extra: Option<seq<Slot>>)
    requires Put(dir, mid, si, longs, short) && Live(dir, was) && lo <= was < |mid| && Lies(dir, mid, per, si + |longs|, |longs|, extra) && 0 < per
    ensures var out, at := Removed(mid, lo, was), si + |longs|;
      && at < |mid| && was != at && Lies(dir, out, per, at, |longs|, extra)
      && (|mid| > |dir| ==> out[at + 1..] == mid[at + 1..])
  {
    hide Put, IsFree, EntryOf, RunAt, Live, Crowded, FirstFit, Stop;
    PutInside(dir, mid, si, longs, short);
    var out, at := Removed(mid, lo, was), si + |longs|;
    assert was != at && (was < at || at < Stop(dir, 0)) && (|mid| > |dir| ==> was < at) by { PutAround(dir, mid, si, longs, short, was); }
    if was < at { assert out[at + 1..] == mid[at + 1..]; }
  }

  lemma MovedCarries(mid: seq<Slot>, lo: nat, to: Name, was: nat, at: nat, e: Entry)
    requires Live(mid, was) && lo <= was < |mid| && was != at && Carries(mid, at, to, e.cluster, e.size, e.isDir) && KindOf(mid[at]) == Regular
    ensures Carries(Removed(mid, lo, was), at, to, e.cluster, e.size, e.isDir)
  {
    hide EntryOf, Live, Removed, Trim, Storable, Stored, RunAt, KindOf;
    LiveSlot(mid, was);
    RemovedKeeps(mid, lo, was, at);
  }

  lemma PutAround(dir: seq<Slot>, out: seq<Slot>, si: nat, longs: seq<Slot>, short: Slot, i: nat)
    requires Put(dir, out, si, longs, short) && Live(dir, i)
    ensures i != si + |longs| && (i < si || si + |longs| < i < Stop(dir, 0)) && (|out| > |dir| ==> i < si)
  {
    PutKeeps(dir, out, si, longs, short, i);
  }

  /** What the two halves of a rename do to the listing, `hidden` saying that the new run is behind an end marker. */
  lemma MovedFrame(dir: seq<Slot>, mid: seq<Slot>, out: seq<Slot>, was: nat, at: nat, hidden: bool)
    requires Kept(dir, mid) && Dropped(mid, out, was) && Live(dir, was) && !Live(dir, at) && was != at
    requires (Live(mid, at) <==> !hidden) && (hidden ==> SameListing(dir, mid))
    ensures (Live(out, at) <==> !hidden) && (!Live(out, at) ==> Dropped(dir, out, was)) && !Live(out, was)
    ensures Replaced(dir, out, Some(was), at) <==> Replaced(dir, mid, None, at)
    ensures forall i: nat :: Live(dir, i) && i != was ==> Live(out, i) && EntryAt(out, i) == EntryAt(dir, i)
  {
    hide EntryOf, Live;
    LiveInside(dir, mid);
    LiveInside(out, out);
    assert Live(mid, was);
  }

  lemma MovedNamed(mid: seq<Slot>, lo: nat, to: Name, was: nat, at: nat, e: Entry)
    requires Live(mid, was) && lo <= was < |mid| && was != at && NamedAt(mid, at, to, e.cluster, e.size, e.isDir)
    ensures NamedAt(Removed(mid, lo, was), at, to, e.cluster, e.size, e.isDir)
  {
    hide EntryOf, Live, EqFold, Find, Removed, Matches, Trim, Storable, Stored;
    LiveInside(mid, mid);
    RemovedReplaces(mid, lo, was);
    FindOnly(mid, to, at);
    FindOnly(Removed(mid, lo, was), to, at);
  }

  lemma MovedDistinct(dir: seq<Slot>, mid: seq<Slot>, lo: nat, to: Name, was: nat, at: nat)
    requires AliasesDistinct(dir) && Live(dir, was) && Replaced(dir, mid, None, at) && Live(mid, was) && was != at && lo <= was < |mid|
    requires Replaced(dir, Removed(mid, lo, was), Some(was), at) && at < |mid|
    requires forall i: nat :: Live(dir, i) && i != was ==>
      i < |mid| && (EqFold(EntryAt(mid, i).short, EntryAt(mid, at).short) <==> DotTwin(to, EntryAt(dir, i).short))
    ensures AliasesDistinct(Removed(mid, lo, was)) <==> !DotClash(dir, to, Some(was))
  {
    hide EntryOf, Live, EqFold, Removed, DotTwin, AliasesDistinct, DotClash;
    LiveInside(dir, mid);
    RemovedReplaces(mid, lo, was);
    StillDistinct(dir, Removed(mid, lo, was), to, Some(was), at);
  }

  lemma EntryBounds(s: Slot, run: Run)
    requires RunOk(run)
    ensures EntryOf(s, run).cluster < 0x1_0000_0000 && EntryOf(s, run).size < 0x1_0000_0000
  {
  }

  /** A directory that holds `A` and room for one more entry. */
  function HoldsA(t: Stamps): (dir: seq<Slot>)
    requires StampsOk(t)
    ensures |dir| == 2
  {
    [SlotOfA(t), EndSlot()]
  }

  lemma HoldsAEntry(t: Stamps)
    requires StampsOk(t)
    ensures var dir := HoldsA(t); WellFormed(dir, 2) && Tight(dir) && EntryAt(dir, 0).short == [65] && EntryAt(dir, 0).name == [65]
    ensures forall i: nat :: Live(HoldsA(t), i) <==> i == 0
  {
    hide SlotOfA, ShortName, Checksum, LongName, Base;
    SlotOfAReads(t);
    StopIs(HoldsA(t), 1);
    EmptyRun();
    BaseIs(2, 1);
  }

  lemma DotTwinStart(t: Stamps)
    requires StampsOk(t)
    ensures var dir := HoldsA(t); WellFormed(dir, 2) && Tight(dir) && AliasesDistinct(dir) && Find(dir, [65, DOT]) == None
    ensures LongCount([65, DOT]) == 0 && !Crowded(HoldsA(t), 2, 1) && !NoPlace(HoldsA(t), 2, [65, DOT], None, true)
    ensures DotClash(HoldsA(t), [65, DOT], None)
  {
    hide EntryOf, RunAt, Live, Find, HoldsA, Packed, Crowded, WellFormed, Tight;
    HoldsAEntry(t);
    FindMeans(HoldsA(t), [65, DOT]);
    var name: Name := [65, DOT];
    assert SplitName(name) == ([65], []) by { assert name[..1] == [65] && name[2..] == []; }
    assert !Crowded(HoldsA(t), 2, 1) by { RoomBehindA(t); }
    assert name[..1] == [65];
    assert DotTwin(name, EntryAt(HoldsA(t), 0).short);
  }

  lemma RoomBehindA(t: Stamps)
    requires StampsOk(t)
    ensures !Crowded(HoldsA(t), 2, 1)
  {
    assert Fits(HoldsA(t), 1, 1);
    assert Base(2, 0) == 0;
    InCluster(2, 0, 1, 1);
  }

  /** Creating `A.` beside `A` succeeds, and the two entries then share one short name. */
  method DotTwins(t: Stamps) returns (f: Folder, at: nat)
    requires StampsOk(t)
    ensures fresh(f) && f.Valid() && at != 0
    ensures Live(f.slots, 0) && Live(f.slots, at) && EqFold(EntryAt(f.slots, 0).short, EntryAt(f.slots, at).short)
    ensures Find(f.slots, [65, DOT]) == None
  {
    hide EntryOf, RunAt, Live, Find, HoldsA, NoPlace, DotClash, EqFold, WellFormed;
    DotTwinStart(t);
    f := new Folder(2, HoldsA(t));
    var r := f.CreateEntry([65, DOT], 0, false, t, None);
    at := r.value;
    OneShared(HoldsA(t), f.slots, at, t);
    assert Trim([65, DOT]) != [65, DOT];
  }

  lemma OneShared(dir: seq<Slot>, out: seq<Slot>, at: nat, t: Stamps)
    requires StampsOk(t) && dir == HoldsA(t) && Replaced(dir, out, None, at) && !AliasesDistinct(out)
    ensures at != 0 && Live(out, 0) && Live(out, at) && EqFold(EntryAt(out, 0).short, EntryAt(out, at).short)
  {
    hide EntryOf, RunAt, Live, HoldsA, EqFold;
    HoldsAEntry(t);
    LiveInside(out, out);
    FoldSymmetric();
  }

  /** A slot of zeros is an end marker. */
  function EndSlot(): (s: Slot)
    ensures KindOf(s) == End
  {
    seq<byte>(32, i => 0)
  }

  function SlotOfA(t: Stamps): (s: Slot)
    requires StampsOk(t)
  {
    ShortSlot(Packed([65], []), false, 0, 0, t)
  }

  lemma SlotOfAReads(t: Stamps)
    requires StampsOk(t)
    ensures KindOf(SlotOfA(t)) == Regular && ShortName(SlotOfA(t)) == [65]
  {
    hide ShortSlot, Packed, ShortName;
    ShortSlotReads(Packed([65], []), false, 0, 0, t);
    PackedReadsBack([65], [], SlotOfA(t));
  }

  /** A cluster of sixteen slots, all taken but the last, which holds the end marker. */
  function OneLeft(t: Stamps): (dir: seq<Slot>)
    requires StampsOk(t)
    ensures |dir| == 16 && forall i :: 0 <= i < 16 ==> dir[i] == if i < 15 then SlotOfA(t) else EndSlot()
  {
    seq(15, i => SlotOfA(t)) + [EndSlot()]
  }

  lemma OneLeftKinds(t: Stamps)
    requires StampsOk(t)
    ensures forall i :: 0 <= i < 16 ==> KindOf(OneLeft(t)[i]) == if i < 15 then Regular else End
  {
    hide SlotOfA, KindOf;
    SlotOfAReads(t);
  }

  lemma OneLeftEntry(t: Stamps, i: nat)
    requires StampsOk(t) && i < 15
    ensures EntryAt(OneLeft(t), i).short == [65] && EntryAt(OneLeft(t), i).name == [65]
  {
    hide SlotOfA, ShortName, Checksum, LongName, KindOf, RunAt;
    SlotOfAReads(t);
    OneLeftKinds(t);
    RunClear(OneLeft(t), i);
    EmptyRun();
  }

  lemma OneLeftLive(t: Stamps)
    requires StampsOk(t)
    ensures forall i: nat :: Live(OneLeft(t), i) ==> i < 15
  {
    hide OneLeft, KindOf;
    OneLeftKinds(t);
  }

  lemma OneLeftShape(t: Stamps)
    requires StampsOk(t)
    ensures WellFormed(OneLeft(t), 16) && Crowded(OneLeft(t), 16, 2) && EndBefore(OneLeft(t), 16)
  {
    hide InOne, OneLeft, Base, KindOf, Fits;
    OneLeftKinds(t);
    BaseIs(16, 1);
    forall j: nat ensures !Fits(OneLeft(t), j, 2) {
      if j < 15 { RegularTaken(OneLeft(t), j, 2); } else { TooLate(OneLeft(t), j, 2); }
    }
  }

  lemma RegularTaken(dir: seq<Slot>, j: nat, need: nat)
    requires j < |dir| && KindOf(dir[j]) == Regular && 0 < need
    ensures !Fits(dir, j, need)
  {
    assert !IsFree(dir[j]);
  }

  lemma TooLate(dir: seq<Slot>, j: nat, need: nat)
    requires |dir| < j + need
    ensures !Fits(dir, j, need)
  {
  }

  const SPACED: Name := [65, SPACE, 66]

  lemma SpacedFacts()
    ensures NeedsLong(SPACED) && LongCount(SPACED) == 1
  {
    hide SplitName, LastDot, Trim;
    assert NeedsLong(SPACED) by { assert !Plain(SPACED[1]) && SPACED[1] != DOT; }
    assert Trim(SPACED) == SPACED;
    assert SlotCount(3) == 1;
  }

  lemma OneLeftFinds(t: Stamps)
    requires StampsOk(t)
    ensures Find(OneLeft(t), SPACED) == None
  {
    hide EntryOf, RunAt, OneLeft, Find, Live;
    FindMeans(OneLeft(t), SPACED);
    OneLeftLive(t);
    forall i: nat | Live(OneLeft(t), i) ensures !Matches(EntryAt(OneLeft(t), i), SPACED) {
      OneLeftEntry(t, i);
    }
  }

  lemma OneLeftTaken(t: Stamps)
    requires StampsOk(t)
    ensures forall x :: x in Shorts(Listing(OneLeft(t), 0), None) ==> x == [65]
  {
    hide EntryOf, RunAt, OneLeft, Listing, Live, Shorts;
    var list := Listing(OneLeft(t), 0);
    OneLeftLive(t);
    forall x | x in Shorts(list, None) ensures x == [65] {
      var m :| 0 <= m < |list| && list[m].1.short == x;
      ListingLive(OneLeft(t), 0, list[m]);
      OneLeftEntry(t, list[m].0);
    }
  }

  lemma OneLeftAlias(t: Stamps)
    requires StampsOk(t)
    ensures Derive(OneLeft(t), SPACED, None).Ok?
  {
    hide OneLeft, Listing, Candidate, MakeShort, Shorts, LongSlots, Checksum, NeedsLong, LongCount, Trim;
    SpacedFacts();
    OneLeftTaken(t);
    var taken := Shorts(Listing(OneLeft(t), 0), None);
    assert !TakenBy(taken, Candidate(SPACED, 1)) by {
      CandidateLong(SPACED);
      forall k | 0 <= k < |taken| ensures taken[k] == [65] { assert taken[k] in taken; }
    }
    CandidateLegal(SPACED, 1);
  }

  lemma CandidateLong(name: Name)
    ensures |Candidate(name, 1)| > 1
  {
    hide Stem, Extension;
  }

  /** A file created behind an end marker is in the directory and is not. */
  lemma HiddenEntry(before: seq<Slot>, after: seq<Slot>, at: nat, name: Name, extra: Option<seq<Slot>>)
    requires Joined(before, after, at, name, extra) && EndBefore(before, at - LongCount(name))
    ensures SameListing(before, after) && !Live(after, at)
  {
    hide SameListing, Kept, Live, LongCount, EndBefore, Alone, Replaced;
  }

  /** Creating `A B` there succeeds, in a new zeroed cluster behind the end marker, and no lookup finds it. */
  method LostEntry(t: Stamps) returns (f: Folder, at: nat)
    requires StampsOk(t)
    ensures fresh(f) && f.Valid() && |f.slots| == 32 && 16 < at < 32 && !Live(f.slots, at) && SameListing(OneLeft(t), f.slots)
    ensures Find(f.slots, SPACED) == None
  {
    hide *;
    SpacedFacts();
    OneLeftShape(t);
    OneLeftFinds(t);
    OneLeftAlias(t);
    f := new Folder(16, OneLeft(t));
    assert f.Valid() && f.per == 16 && f.slots == OneLeft(t);
    var extra: seq<Slot> := seq(16, i => EndSlot());
    SpacedFits(t, extra);
    var r := f.CreateEntry(SPACED, 0, false, t, Some(extra));
    at := r.value;
    LiesBehind(OneLeft(t), f.slots, 16, at, 1, extra);
    HiddenEntry(OneLeft(t), f.slots, at, SPACED, Some(extra));
    SameFind(OneLeft(t), f.slots, SPACED);
  }

  lemma SpacedFits(t: Stamps, extra: seq<Slot>)
    requires StampsOk(t)
    ensures |SPACED| == 3 && 47 !in SPACED && 92 !in SPACED
    ensures !NoPlace(OneLeft(t), 16, SPACED, None, Some(extra).None?)
  {
    hide OneLeft, Derive;
    OneLeftAlias(t);
  }

  lemma LiesBehind(before: seq<Slot>, after: seq<Slot>, per: nat, at: nat, longs: nat, extra: seq<Slot>)
    requires Lies(before, after, per, at, longs, Some(extra)) && Crowded(before, per, longs + 1)
    requires forall i :: 0 <= i < |extra| ==> KindOf(extra[i]) == End
    ensures |after| == |before| + per && at == |before| + longs < |after| && LeadsOn(after[at + 1..])
  {
    hide Crowded, FirstFit, KindOf;
  }

  lemma SameFind(a: seq<Slot>, b: seq<Slot>, name: Name)
    requires SameListing(a, b) && Find(a, name) == None
    ensures Find(b, name) == None
  {
    hide EntryOf, RunAt, Live, Find, Matches;
    LiveInside(a, b);
    FindMeans(a, name);
    FindMeans(b, name);
  }
}
