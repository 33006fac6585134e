/**
 A directory: clusters of 32-byte slots, where a run of long slots names the short entry right
 behind it. Entries are created, removed and renamed without disturbing their neighbours.
 */
module FatDirectory {
  import opened Bytes
  import opened Fs
  import opened FatSlots
  import opened FatShort

  datatype Kind = End | Deleted | Long | Volume | Regular

  function KindOf(s: Slot): Kind {
    if s[0] == 0 then End
    else if s[0] == 0xE5 then Deleted
    else if s[11] == ATTR_LFN then Long
    else if (s[11] / 8) % 2 == 1 then Volume
    else Regular
  }

  predicate IsFree(s: Slot) {
    s[0] == 0 || s[0] == 0xE5
  }

  datatype Entry = Entry(name: Name, short: Name, cluster: nat, size: nat, isDir: bool)

  /** The long name only counts when its checksum ties it to this short entry. */
  function EntryOf(s: Slot, run: Run): Entry
    requires RunOk(run)
  {
    Entry(if run.parts == [] || run.sum != Checksum(s[..11]) then ShortName(s) else LongName(run),
          ShortName(s), 0x1_0000 * U16At(s, 20) + U16At(s, 26), U32At(s, 28), (s[11] / 16) % 2 == 1)
  }

  /** The run in front of slot `i`: the unbroken long slots before it. */
  function RunAt(dir: seq<Slot>, i: nat): (run: Run)
    requires i <= |dir|
    ensures RunOk(run)
  {
    if i == 0 || KindOf(dir[i - 1]) != Long then CLEAR
    else ExtendOk(RunAt(dir, i - 1), dir[i - 1]); Extend(RunAt(dir, i - 1), dir[i - 1])
  }

  function EntryAt(dir: seq<Slot>, i: nat): Entry
    requires i < |dir|
  {
    EntryOf(dir[i], RunAt(dir, i))
  }

  /** Where the directory ends: its first end marker, or its last slot. */
  function Stop(dir: seq<Slot>, i: nat): (e: nat)
    requires i <= |dir|
    ensures i <= e <= |dir| && (e < |dir| ==> KindOf(dir[e]) == End)
    ensures forall j :: i <= j < e ==> KindOf(dir[j]) != End
    decreases |dir| - i
  {
    if i == |dir| || KindOf(dir[i]) == End then i else Stop(dir, i + 1)
  }

  predicate Live(dir: seq<Slot>, i: nat) {
    i < Stop(dir, 0) && KindOf(dir[i]) == Regular
  }

  /** The listing: every live entry with its slot number, in order. */
  function Listing(dir: seq<Slot>, i: nat): (r: seq<(nat, Entry)>)
    requires i <= |dir|
    ensures forall k :: 0 <= k < |r| ==> r[k].0 < |dir|
    decreases |dir| - i
  {
    if i == |dir| || KindOf(dir[i]) == End then []
    else (if KindOf(dir[i]) == Regular then [(i, EntryAt(dir, i))] else []) + Listing(dir, i + 1)
  }

  /** The listing holds exactly the live entries. */
  lemma {:induction false} ListingLive(dir: seq<Slot>, i: nat, x: (nat, Entry))
    requires i <= Stop(dir, 0)
    ensures x in Listing(dir, i) <==> i <= x.0 && Live(dir, x.0) && x.1 == EntryAt(dir, x.0)
    decreases |dir| - i
  {
    hide EntryOf, RunAt, RunOk, KindOf;
    if i < Stop(dir, 0) {
      ListingLive(dir, i + 1, x);
    }
  }

  lemma ScanStart(dir: seq<Slot>)
    ensures RunAt(dir, 0) == CLEAR
  {
  }

  lemma ScanEnd(dir: seq<Slot>, i: nat)
    requires i == |dir| || (i < |dir| && KindOf(dir[i]) == End)
    ensures Listing(dir, i) == []
  {
  }

  lemma ScanStep(dir: seq<Slot>, i: nat, r: seq<(nat, Entry)>)
    requires i < |dir| && KindOf(dir[i]) != End && r + Listing(dir, i) == Listing(dir, 0)
    ensures RunAt(dir, i + 1) == if KindOf(dir[i]) == Long then Extend(RunAt(dir, i), dir[i]) else CLEAR
    ensures (if KindOf(dir[i]) == Regular then r + [(i, EntryAt(dir, i))] else r) + Listing(dir, i + 1) == Listing(dir, 0)
  {
    hide EntryOf, RunOk, PartOf, KindOf;
    if KindOf(dir[i]) == Regular {
      assert (r + [(i, EntryAt(dir, i))]) + Listing(dir, i + 1) == r + ([(i, EntryAt(dir, i))] + Listing(dir, i + 1));
    }
  }

  /** The forward scan, with the run it has collected so far kept in three variables. */
  method ScanDir(dir: seq<Slot>) returns (r: seq<(nat, Entry)>)
    ensures r == Listing(dir, 0)
  {
    hide EntryOf, RunOk, PartOf, Listing, RunAt;
    assert Listing(dir, 0) == [] + Listing(dir, 0) && RunAt(dir, 0) == CLEAR by { ScanStart(dir); }
    r := [];
    var parts: seq<(nat, seq<byte>)> := [];
    var sum: byte := 0;
    var next := 0;
    var i := 0;
    while i < |dir|
      invariant i <= |dir| && Run(parts, sum, next) == RunAt(dir, i)
      invariant r + Listing(dir, i) == Listing(dir, 0)
    {
      var slot := dir[i];
      if slot[0] == 0 {
        ScanEnd(dir, i);
        return;
      }
      ScanStep(dir, i, r);
      if slot[0] == 0xE5 {
        parts, sum, next := [], 0, 0;
        i := i + 1;
        continue;
      }
      var attr := slot[11];
      if attr == ATTR_LFN {
        var order := slot[0] % 32;
        if next == 0 || order != next {
          parts, sum := [], 0;
        }
        parts := parts + [(order, PartOf(slot))];
        sum := slot[13];
        next := if order > 1 then order - 1 else 0;
        i := i + 1;
        continue;
      }
      if (attr / 8) % 2 == 1 {
        parts, sum, next := [], 0, 0;
        i := i + 1;
        continue;
      }
      r := r + [(i, EntryOf(slot, Run(parts, sum, next)))];
      parts, sum, next := [], 0, 0;
      i := i + 1;
    }
    ScanEnd(dir, i);
  }

  // ---- clusters ----

  /** Where cluster `c` of a directory begins, with `per` slots in each. */
  function Base(per: nat, c: nat): nat {
    if c == 0 then 0 else Base(per, c - 1) + per
  }

  lemma {:induction false} BaseIs(per: nat, c: nat)
    ensures Base(per, c) == c * per
  {
    if c > 0 {
      BaseIs(per, c - 1);
      assert (c - 1) * per + per == c * per;
    }
  }

  /** Slots `si` to `si + need` lie in one cluster. */
  ghost predicate InOne(per: nat, si: nat, need: nat) {
    exists c: nat :: Base(per, c) <= si && si + need <= Base(per, c) + per
  }

  // ---- well-formed directories ----

  /** Every long slot leads on to its short entry. */
  ghost predicate LeadsOn(dir: seq<Slot>) {
    forall i :: 0 <= i < |dir| && KindOf(dir[i]) == Long ==> i + 1 < |dir| && KindOf(dir[i + 1]) in {Long, Regular}
  }

  /** Whole clusters, every long slot leads on, and no run crosses from one cluster to the next. */
  ghost predicate WellFormed(dir: seq<Slot>, per: nat) {
    && 0 < per && LeadsOn(dir)
    && (exists n: nat :: |dir| == Base(per, n))
    && (forall c: nat :: 0 < Base(per, c) <= |dir| ==> KindOf(dir[Base(per, c) - 1]) != Long)
  }

  /** Nothing follows the end marker. */
  ghost predicate Tight(dir: seq<Slot>) {
    forall i :: Stop(dir, 0) <= i < |dir| ==> KindOf(dir[i]) == End
  }

  /** The run in front of a slot depends on the slots before it only. */
  lemma {:induction false} RunPrefix(a: seq<Slot>, b: seq<Slot>, i: nat)
    requires i <= |a| && i <= |b| && a[..i] == b[..i]
    ensures RunAt(a, i) == RunAt(b, i)
  {
    if i > 0 {
      assert a[i - 1] == a[..i][i - 1] == b[..i][i - 1] == b[i - 1];
      assert a[..i - 1] == a[..i][..i - 1] == b[..i][..i - 1] == b[..i - 1];
      RunPrefix(a, b, i - 1);
    }
  }

  /** Behind a slot that breaks runs, equal slots have equal runs. */
  lemma {:induction false} RunSuffix(a: seq<Slot>, b: seq<Slot>, at: nat, i: nat)
    requires |a| == |b| && at < i <= |a| && KindOf(a[at]) != Long && KindOf(b[at]) != Long
    requires forall j :: at < j < i ==> a[j] == b[j]
    ensures RunAt(a, i) == RunAt(b, i)
  {
    if i > at + 1 {
      RunSuffix(a, b, at, i - 1);
    }
  }

  lemma StopIs(dir: seq<Slot>, e: nat)
    requires e <= |dir| && (e < |dir| ==> KindOf(dir[e]) == End)
    requires forall j :: 0 <= j < e ==> KindOf(dir[j]) != End
    ensures Stop(dir, 0) == e
  {
  }

  // ---- placing a run ----

  predicate Fits(dir: seq<Slot>, si: nat, need: nat) {
    si + need <= |dir| && forall k :: si <= k < si + need ==> IsFree(dir[k])
  }

  /** First fit: the lowest place with enough free slots in a row inside one cluster. */
  ghost predicate FirstFit(dir: seq<Slot>, per: nat, si: nat, need: nat) {
    Fits(dir, si, need) && InOne(per, si, need) && forall j: nat :: j < si ==> !(Fits(dir, j, need) && InOne(per, j, need))
  }

  /** No cluster has `need` free slots in a row. */
  ghost predicate Crowded(dir: seq<Slot>, per: nat, need: nat) {
    forall j: nat :: !(Fits(dir, j, need) && InOne(per, j, need))
  }

  /** No place before `si` will do. */
  ghost predicate NoneTo(dir: seq<Slot>, per: nat, need: nat, si: nat) {
    forall j: nat :: j < si ==> !(Fits(dir, j, need) && InOne(per, j, need))
  }

  method AllocRun(dir: seq<Slot>, per: nat, need: nat) returns (r: Option<nat>)
    requires 0 < need && 0 < per && exists n: nat :: |dir| == Base(per, n)
    ensures r.Some? ==> FirstFit(dir, per, r.value, need)
    ensures r.None? <==> Crowded(dir, per, need)
  {
    hide InOne, IsFree, NoneTo;
    ghost var n: nat :| |dir| == Base(per, n);
    var ci, base := 0, 0;
    NoneToZero(dir, per, need);
    while base < |dir|
      invariant ci <= n && base == Base(per, ci) && base <= |dir| && NoneTo(dir, per, need, base)
      decreases |dir| - base
    {
      BaseNext(per, ci, n);
      var si := 0;
      while si + need <= per
        invariant si <= per && NoneTo(dir, per, need, base + si)
        decreases per - si
      {
        var free := AllFree(dir, base + si, need);
        InCluster(per, ci, base + si, need);
        if free {
          FoundFit(dir, per, need, base + si);
          return Some(base + si);
        }
        NoneToNext(dir, per, need, base + si);
        si := si + 1;
      }
      NoRoomLeft(dir, per, need, ci, base + si);
      base := base + per;
      ci := ci + 1;
    }
    NoneAtAll(dir, per, need);
    return None;
  }

  method AllFree(dir: seq<Slot>, si: nat, need: nat) returns (b: bool)
    requires si + need <= |dir|
    ensures b <==> Fits(dir, si, need)
  {
    var k := 0;
    while k < need && IsFree(dir[si + k])
      invariant k <= need && forall j :: si <= j < si + k ==> IsFree(dir[j])
    {
      k := k + 1;
    }
    return k == need;
  }

  lemma NoneToZero(dir: seq<Slot>, per: nat, need: nat)
    ensures NoneTo(dir, per, need, 0)
  {
  }

  lemma NoneToNext(dir: seq<Slot>, per: nat, need: nat, si: nat)
    requires NoneTo(dir, per, need, si) && !Fits(dir, si, need)
    ensures NoneTo(dir, per, need, si + 1)
  {
  }

  lemma FoundFit(dir: seq<Slot>, per: nat, need: nat, si: nat)
    requires NoneTo(dir, per, need, si) && Fits(dir, si, need) && InOne(per, si, need)
    ensures FirstFit(dir, per, si, need) && !Crowded(dir, per, need)
  {
  }

  lemma NoneAtAll(dir: seq<Slot>, per: nat, need: nat)
    requires NoneTo(dir, per, need, |dir|) && 0 < need
    ensures Crowded(dir, per, need)
  {
    hide InOne, IsFree;
  }

  lemma InCluster(per: nat, c: nat, si: nat, need: nat)
    requires Base(per, c) <= si && si + need <= Base(per, c) + per
    ensures InOne(per, si, need)
  {
  }

  /** A whole cluster lies between two cluster boundaries. */
  lemma {:induction false} BaseNext(per: nat, c: nat, n: nat)
    requires c <= n && 0 < per
    ensures Base(per, c) <= Base(per, n) && (Base(per, c) < Base(per, n) ==> c < n && Base(per, c) + per <= Base(per, n))
    decreases n - c
  {
    if c < n {
      BaseNext(per, c, n - 1);
    }
  }

  /** Past the last place that fits a cluster, only the next cluster is left. */
  lemma NoRoomLeft(dir: seq<Slot>, per: nat, need: nat, c: nat, si: nat)
    requires 0 < per && 0 < need && Base(per, c) <= si <= Base(per, c) + per < si + need && NoneTo(dir, per, need, si)
    ensures NoneTo(dir, per, need, Base(per, c) + per)
  {
    hide Fits;
    forall j: nat | si <= j < Base(per, c) + per ensures !InOne(per, j, need) {
      forall d: nat ensures !(Base(per, d) <= j && j + need <= Base(per, d) + per) {
        if d <= c {
          BaseNext(per, d, c);
        } else {
          BaseNext(per, c, d);
        }
      }
    }
  }

  function Placed(dir: seq<Slot>, si: nat, run: seq<Slot>): (r: seq<Slot>)
    requires si + |run| <= |dir|
    ensures |r| == |dir| && forall i :: 0 <= i < |r| ==> r[i] == if si <= i < si + |run| then run[i - si] else dir[i]
  {
    dir[..si] + run + dir[si + |run|..]
  }

  /** What is written: long slots, then a regular short entry. */
  ghost predicate RunOfEntry(longs: seq<Slot>, short: Slot) {
    KindOf(short) == Regular && forall k :: 0 <= k < |longs| ==> KindOf(longs[k]) == Long
  }

  /** `out` is `dir` with a run written at `si`: into free slots, or at the start of one more cluster. */
  ghost predicate Put(dir: seq<Slot>, out: seq<Slot>, si: nat, longs: seq<Slot>, short: Slot) {
    && LeadsOn(dir) && RunOfEntry(longs, short) && si <= |dir| <= |out| && si + |longs| < |out|
    && (if |out| == |dir| then Fits(dir, si, |longs| + 1) else si == |dir|)
    && (forall i :: 0 <= i < si ==> out[i] == dir[i])
    && (forall i :: 0 <= i < |longs| ==> out[si + i] == longs[i]) && out[si + |longs|] == short
    && (|out| == |dir| ==> forall i :: si + |longs| < i < |dir| ==> out[i] == dir[i])
  }

  lemma PutPlaced(dir: seq<Slot>, si: nat, longs: seq<Slot>, short: Slot)
    requires LeadsOn(dir) && RunOfEntry(longs, short) && Fits(dir, si, |longs| + 1)
    ensures Put(dir, Placed(dir, si, longs + [short]), si, longs, short)
  {
    hide KindOf, IsFree;
  }

  lemma PutBehind(dir: seq<Slot>, extra: seq<Slot>, longs: seq<Slot>, short: Slot)
    requires LeadsOn(dir) && RunOfEntry(longs, short) && |longs| < |extra|
    ensures var out := Placed(dir + extra, |dir|, longs + [short]);
      Put(dir, out, |dir|, longs, short) && out[|dir| + |longs| + 1..] == extra[|longs| + 1..]
  {
    hide KindOf, IsFree;
  }

  /** An end marker lies in front of slot `si`. */
  ghost predicate EndBefore(dir: seq<Slot>, si: nat) {
    exists j :: 0 <= j < si && j < |dir| && KindOf(dir[j]) == End
  }

  lemma FreeKinds(dir: seq<Slot>, si: nat, need: nat)
    requires Fits(dir, si, need)
    ensures forall k :: si <= k < si + need ==> KindOf(dir[k]) in {End, Deleted}
  {
  }

  /** The run does not continue one in front of it. */
  lemma PutStart(dir: seq<Slot>, out: seq<Slot>, si: nat, longs: seq<Slot>, short: Slot)
    requires Put(dir, out, si, longs, short)
    ensures si == 0 || KindOf(out[si - 1]) != Long
  {
    if |out| == |dir| { FreeKinds(dir, si, |longs| + 1); }
    hide KindOf, IsFree;
    if si > 0 {
      assert out[si - 1] == dir[si - 1];
      assert si < |dir| ==> KindOf(dir[si]) in {End, Deleted};
      assert KindOf(dir[si - 1]) != Long;
    }
  }

  /** Where the directory ends afterwards. */
  lemma PutStop(dir: seq<Slot>, out: seq<Slot>, si: nat, longs: seq<Slot>, short: Slot)
    requires Put(dir, out, si, longs, short)
    ensures var e, at := Stop(dir, 0), si + |longs|;
      Stop(out, 0) == if e < si then e else if e <= at then Stop(out, at + 1) else e
    ensures EndBefore(dir, si) <==> Stop(dir, 0) < si
  {
    hide KindOf, IsFree;
    var e, at := Stop(dir, 0), si + |longs|;
    forall k | si <= k <= at ensures KindOf(out[k]) != End {
      if k < at { assert out[si + (k - si)] == longs[k - si]; }
    }
    StopIs(out, if e < si then e else if e <= at then Stop(out, at + 1) else e);
  }

  /** Every entry that was listed still is, with its name, cluster, size and kind. */
  lemma PutKeeps(dir: seq<Slot>, out: seq<Slot>, si: nat, longs: seq<Slot>, short: Slot, i: nat)
    requires Put(dir, out, si, longs, short) && Live(dir, i)
    ensures Live(out, i) && EntryAt(out, i) == EntryAt(dir, i) && (i < si || si + |longs| < i)
  {
    PutStop(dir, out, si, longs, short);
    if |out| == |dir| { FreeKinds(dir, si, |longs| + 1); }
    hide EntryOf, RunAt, KindOf, IsFree;
    if i < si {
      assert out[..i] == dir[..i];
      RunPrefix(out, dir, i);
    } else {
      RunSuffix(out, dir, si + |longs|, i);
    }
  }

  /** Slot `i` was behind the end of the directory and no longer is. */
  ghost predicate Shown(dir: seq<Slot>, out: seq<Slot>, at: nat, i: nat)
    requires at < |out|
  {
    Stop(dir, 0) <= at < i && i < Stop(out, at + 1) && KindOf(out[i]) == Regular
  }

  /**
   What is listed afterwards: nothing new behind an end marker; otherwise the new entry, and
   whatever the end marker it was written over, or the end of the last cluster, had kept hidden.
   */
  lemma PutLive(dir: seq<Slot>, out: seq<Slot>, si: nat, longs: seq<Slot>, short: Slot, i: nat)
    requires Put(dir, out, si, longs, short)
    ensures var at := si + |longs|;
      Live(out, i) <==> (Live(dir, i) || (!EndBefore(dir, si) && (i == at || Shown(dir, out, at, i))))
    ensures !Live(dir, si + |longs|)
  {
    PutStop(dir, out, si, longs, short);
    if |out| == |dir| { FreeKinds(dir, si, |longs| + 1); }
    hide KindOf, IsFree;
    var at := si + |longs|;
    if si <= i < at { assert out[si + (i - si)] == longs[i - si]; }
  }

  /** Nothing comes to light behind the run. */
  ghost predicate Quiet(dir: seq<Slot>, out: seq<Slot>, at: nat)
    requires at < |out|
  {
    forall i: nat :: !Shown(dir, out, at, i)
  }

  lemma {:induction false} StopShift(dir: seq<Slot>, k: nat, i: nat)
    requires k + i <= |dir|
    ensures Stop(dir, k + i) == k + Stop(dir[k..], i)
    decreases |dir| - k - i
  {
    hide KindOf;
    if k + i < |dir| { StopShift(dir, k, i + 1); }
  }

  /** Nothing among these slots would be listed. */
  ghost predicate Barren(tail: seq<Slot>) {
    forall i: nat :: !Live(tail, i)
  }

  /** Nothing comes to light exactly when the directory goes on behind the run or holds nothing there. */
  lemma QuietBarren(dir: seq<Slot>, out: seq<Slot>, at: nat)
    requires at < |out|
    ensures Quiet(dir, out, at) <==> at < Stop(dir, 0) || Barren(out[at + 1..])
  {
    hide KindOf;
    var tail := out[at + 1..];
    StopShift(out, at + 1, 0);
    if Stop(dir, 0) <= at {
      forall i: nat ensures Live(tail, i) <==> Shown(dir, out, at, at + 1 + i) {
        assert i < |tail| ==> tail[i] == out[at + 1 + i];
      }
      if Barren(tail) {
        forall i: nat ensures !Shown(dir, out, at, i) {
          if at < i { assert !Live(tail, i - at - 1); }
        }
      }
    }
  }

  /** Only end markers. */
  ghost predicate Blank(tail: seq<Slot>) {
    forall i :: 0 <= i < |tail| ==> KindOf(tail[i]) == End
  }

  /** A listed run leaves nothing behind the end marker and brings nothing to light. */
  lemma PutTight(dir: seq<Slot>, out: seq<Slot>, si: nat, longs: seq<Slot>, short: Slot)
    requires Tight(dir) && Put(dir, out, si, longs, short) && !EndBefore(dir, si)
    requires |out| > |dir| ==> Blank(out[si + |longs| + 1..])
    ensures Tight(out) && Quiet(dir, out, si + |longs|)
  {
    PutStop(dir, out, si, longs, short);
    hide KindOf, IsFree;
    var e, at := Stop(dir, 0), si + |longs|;
    var tail := out[at + 1..];
    assert forall i :: at < i < |out| ==> out[i] == tail[i - at - 1];
    assert e <= at ==> forall i :: at < i < |out| ==> KindOf(out[i]) == End;
  }

  lemma PutLeadsOn(dir: seq<Slot>, out: seq<Slot>, si: nat, longs: seq<Slot>, short: Slot)
    requires Put(dir, out, si, longs, short)
    ensures |out| == |dir| ==> LeadsOn(out)
    ensures |out| > |dir| ==> (LeadsOn(out) <==> LeadsOn(out[si + |longs| + 1..]))
  {
    PutStart(dir, out, si, longs, short);
    if |out| == |dir| { FreeKinds(dir, si, |longs| + 1); }
    hide KindOf, IsFree;
    var at := si + |longs|;
    var rest := out[at + 1..];
    if |out| == |dir| || LeadsOn(rest) {
      forall i | 0 <= i < |out| && KindOf(out[i]) == Long ensures i + 1 < |out| && KindOf(out[i + 1]) in {Long, Regular} {
        if i < si {
          assert out[i] == dir[i] && i + 1 < si;
        } else if i <= at {
          assert i < at && (i + 1 < at ==> out[si + (i + 1 - si)] == longs[i + 1 - si]);
        } else if |out| > |dir| {
          assert out[i] == rest[i - at - 1];
        } else {
          assert out[i] == dir[i] && (i + 1 < |dir| ==> out[i + 1] == dir[i + 1]);
        }
      }
    }
    if |out| > |dir| && LeadsOn(out) {
      forall i | 0 <= i < |rest| && KindOf(rest[i]) == Long ensures i + 1 < |rest| && KindOf(rest[i + 1]) in {Long, Regular} {
        assert out[at + 1 + i] == rest[i];
      }
    }
  }

  /** A run inside one cluster crosses no boundary. */
  lemma PutWellFormed(dir: seq<Slot>, out: seq<Slot>, per: nat, si: nat, longs: seq<Slot>, short: Slot)
    requires Put(dir, out, si, longs, short) && WellFormed(dir, per) && InOne(per, si, |longs| + 1)
    requires |out| == |dir| || |out| == |dir| + per
    ensures WellFormed(out, per) <==> |out| == |dir| || LeadsOn(out[si + |longs| + 1..])
  {
    PutLeadsOn(dir, out, si, longs, short);
    if |out| == |dir| { FreeKinds(dir, si, |longs| + 1); }
    hide KindOf, IsFree, LeadsOn;
    ghost var n: nat :| |dir| == Base(per, n);
    assert |out| == Base(per, if |out| == |dir| then n else n + 1);
    if LeadsOn(out) {
      forall c: nat | 0 < Base(per, c) <= |out| ensures KindOf(out[Base(per, c) - 1]) != Long {
        Boundary(dir, out, per, si, longs, short, n, c);
      }
    }
  }

  lemma Boundary(dir: seq<Slot>, out: seq<Slot>, per: nat, si: nat, longs: seq<Slot>, short: Slot, n: nat, c: nat)
    requires Put(dir, out, si, longs, short) && WellFormed(dir, per) && InOne(per, si, |longs| + 1) && LeadsOn(out)
    requires |dir| == Base(per, n) && (|out| == |dir| || |out| == |dir| + per) && 0 < Base(per, c) <= |out|
    ensures KindOf(out[Base(per, c) - 1]) != Long
  {
    hide KindOf, IsFree;
    var b, at := Base(per, c), si + |longs|;
    var d: nat :| Base(per, d) <= si && si + |longs| + 1 <= Base(per, d) + per;
    if si < b <= at {
      if c <= d { BaseNext(per, c, d); } else { BaseNext(per, d, c); }
    } else if b == at + 1 || b == |out| {
    } else if b <= si {
      assert out[b - 1] == dir[b - 1];
    } else if |out| == |dir| {
      assert out[b - 1] == dir[b - 1];
    } else {
      if c <= n { BaseNext(per, c, n); } else { BaseNext(per, n, c); }
    }
  }

  lemma RunClear(dir: seq<Slot>, i: nat)
    requires i <= |dir| && (i == 0 || KindOf(dir[i - 1]) != Long)
    ensures RunAt(dir, i) == CLEAR
  {
  }

  lemma {:induction false} RunOverLongs(dir: seq<Slot>, si: nat, longs: seq<Slot>, k: nat)
    requires k <= |longs| && si + k <= |dir| && dir[si..si + k] == longs[..k] && RunAt(dir, si) == CLEAR
    requires forall j :: 0 <= j < k ==> KindOf(longs[j]) == Long
    ensures RunAt(dir, si + k) == ExtendAll(CLEAR, longs[..k])
  {
    hide Extend, RunOk;
    if k > 0 {
      assert dir[si..si + k][..k - 1] == dir[si..si + k - 1] && longs[..k][..k - 1] == longs[..k - 1];
      assert dir[si + k - 1] == dir[si..si + k][k - 1] == longs[k - 1];
      RunOverLongs(dir, si, longs, k - 1);
    }
  }

  lemma PutRun(dir: seq<Slot>, out: seq<Slot>, si: nat, longs: seq<Slot>, short: Slot)
    requires Put(dir, out, si, longs, short)
    ensures RunAt(out, si + |longs|) == ExtendAll(CLEAR, longs)
  {
    PutStart(dir, out, si, longs, short);
    hide RunAt, ExtendAll, LeadsOn, KindOf, RunOk, IsFree;
    assert RunAt(out, si) == CLEAR by {
      RunClear(out, si);
    }
    assert out[si..si + |longs|] == longs[..|longs|];
    RunOverLongs(out, si, longs, |longs|);
    assert longs[..|longs|] == longs;
  }

  /** The new entry is read with exactly the name its long slots spell. */
  lemma PutReads(dir: seq<Slot>, out: seq<Slot>, si: nat, longs: seq<Slot>, short: Slot)
    requires Put(dir, out, si, longs, short)
    ensures RunOk(ExtendAll(CLEAR, longs))
    ensures EntryAt(out, si + |longs|) == EntryOf(short, ExtendAll(CLEAR, longs))
  {
    hide EntryOf, RunAt, ExtendAll, LeadsOn, KindOf, IsFree;
    ExtendAllOk(CLEAR, longs);
    PutRun(dir, out, si, longs, short);
  }

  // ---- removing an entry ----

  function Erase(s: Slot): Slot {
    s[0 := 0xE5]
  }

  /** Where the unbroken slots with the long-name attribute in front of `i` begin, no further back than `lo`. */
  function BlockStart(dir: seq<Slot>, lo: nat, i: nat): (b: nat)
    requires lo <= i <= |dir|
    ensures lo <= b <= i && (b == lo || dir[b - 1][11] != ATTR_LFN)
    ensures forall j :: b <= j < i ==> dir[j][11] == ATTR_LFN
  {
    if i == lo || dir[i - 1][11] != ATTR_LFN then i else BlockStart(dir, lo, i - 1)
  }

  /** Entry `i` and its run are marked deleted; `lo` is where its cluster begins. */
  function Removed(dir: seq<Slot>, lo: nat, i: nat): (r: seq<Slot>)
    requires lo <= i < |dir|
    ensures |r| == |dir|
    ensures forall j :: 0 <= j < |r| ==> r[j] == if BlockStart(dir, lo, i) <= j <= i then Erase(dir[j]) else dir[j]
  {
    var b := BlockStart(dir, lo, i);
    seq(|dir|, j requires 0 <= j < |dir| => if b <= j <= i then Erase(dir[j]) else dir[j])
  }

  lemma ErasedKind(s: Slot)
    ensures KindOf(Erase(s)) == Deleted && Erase(s)[11] == s[11]
  {
  }

  lemma RemovedStop(dir: seq<Slot>, lo: nat, i: nat)
    requires Live(dir, i) && lo <= i
    ensures Stop(Removed(dir, lo, i), 0) == Stop(dir, 0)
  {
    StopIs(Removed(dir, lo, i), Stop(dir, 0));
  }

  lemma RemovedTight(dir: seq<Slot>, lo: nat, i: nat)
    requires Tight(dir) && Live(dir, i) && lo <= i
    ensures Tight(Removed(dir, lo, i))
  {
    RemovedStop(dir, lo, i);
    hide KindOf, Removed;
  }

  /** No orphaned run is left behind. */
  lemma RemovedWellFormed(dir: seq<Slot>, per: nat, c: nat, i: nat)
    requires WellFormed(dir, per) && Base(per, c) <= i && Live(dir, i)
    ensures WellFormed(Removed(dir, Base(per, c), i), per)
  {
    hide Erase, KindOf, Removed, Live, LeadsOn, BlockStart, WellFormed;
    LiveSlot(dir, i);
    var lo := Base(per, c);
    var out := Removed(dir, lo, i);
    Boundaries(dir, per, c, i);
    RemovedLeadsOn(dir, lo, i);
    forall j: nat | j < |dir| ensures KindOf(out[j]) == Long ==> KindOf(dir[j]) == Long {
      RemovedKind(dir, lo, i, j);
    }
    SameBoundaries(dir, out, per);
  }

  lemma Boundaries(dir: seq<Slot>, per: nat, c: nat, i: nat)
    requires WellFormed(dir, per) && Base(per, c) <= i < |dir|
    ensures LeadsOn(dir) && (Base(per, c) > 0 ==> KindOf(dir[Base(per, c) - 1]) != Long)
  {
    hide LeadsOn, KindOf;
  }

  lemma SameBoundaries(dir: seq<Slot>, out: seq<Slot>, per: nat)
    requires WellFormed(dir, per) && |out| == |dir| && LeadsOn(out) && forall j: nat :: j < |dir| && KindOf(out[j]) == Long ==> KindOf(dir[j]) == Long
    ensures WellFormed(out, per)
  {
    hide LeadsOn, KindOf;
  }

  lemma LiveSlot(dir: seq<Slot>, i: nat)
    requires Live(dir, i)
    ensures i < |dir| && KindOf(dir[i]) == Regular
  {
  }

  lemma RemovedKind(dir: seq<Slot>, lo: nat, i: nat, j: nat)
    requires lo <= i < |dir| && j < |dir|
    ensures KindOf(Removed(dir, lo, i)[j]) == Long ==> KindOf(dir[j]) == Long && Removed(dir, lo, i)[j] == dir[j]
  {
    ErasedKind(dir[j]);
  }

  lemma RemovedLeadsOn(dir: seq<Slot>, lo: nat, i: nat)
    requires LeadsOn(dir) && lo <= i && Live(dir, i) && (lo > 0 ==> KindOf(dir[lo - 1]) != Long)
    ensures LeadsOn(Removed(dir, lo, i))
  {
    hide Erase;
    var out := Removed(dir, lo, i);
    forall j | 0 <= j < |out| && KindOf(out[j]) == Long ensures j + 1 < |out| && KindOf(out[j + 1]) in {Long, Regular} {
      ErasedKind(dir[j]);
      assert KindOf(dir[j]) == Long;
    }
  }

  lemma RemovedLive(dir: seq<Slot>, lo: nat, i: nat, j: nat)
    requires Live(dir, i) && lo <= i
    ensures Live(Removed(dir, lo, i), j) <==> Live(dir, j) && j != i
    ensures Live(dir, j) && j != i ==> j < BlockStart(dir, lo, i) || i < j
  {
    RemovedStop(dir, lo, i);
    if j < |dir| { ErasedKind(dir[j]); }
  }

  /** Every other entry keeps its name, cluster, size and kind. */
  lemma RemovedKeeps(dir: seq<Slot>, lo: nat, i: nat, j: nat)
    requires lo <= i < |dir| && j < |dir| && j != i && KindOf(dir[i]) == KindOf(dir[j]) == Regular
    ensures EntryAt(Removed(dir, lo, i), j) == EntryAt(dir, j)
  {
    hide EntryOf, RunAt, BlockStart;
    var out := Removed(dir, lo, i);
    if j < i {
      assert out[..j] == dir[..j];
      RunPrefix(out, dir, j);
    } else {
      ErasedKind(dir[i]);
      RunSuffix(out, dir, i, j);
    }
  }

  // ---- finding by name ----

  predicate Matches(e: Entry, name: Name) {
    EqFold(e.name, name) || EqFold(e.short, name)
  }

  function FindIn(list: seq<(nat, Entry)>, name: Name): (r: Option<nat>)
    ensures r.None? <==> forall k :: 0 <= k < |list| ==> !Matches(list[k].1, name)
    ensures r.Some? ==> exists k :: 0 <= k < |list| && list[k].0 == r.value && Matches(list[k].1, name)
  {
    if list == [] then None
    else if Matches(list[0].1, name) then Some(list[0].0)
    else
      var r := FindIn(list[1..], name);
      assert forall k :: 0 <= k < |list[1..]| ==> list[1..][k] == list[k + 1];
      r
  }

  function Find(dir: seq<Slot>, name: Name): (r: Option<nat>)
    ensures r.Some? ==> r.value < |dir|
  {
    FindIn(Listing(dir, 0), name)
  }

  /** A lookup finds nothing exactly when no live entry answers to the name. */
  lemma FindMeans(dir: seq<Slot>, name: Name)
    ensures Find(dir, name).None? <==> forall i: nat :: Live(dir, i) ==> !Matches(EntryAt(dir, i), name)
    ensures Find(dir, name).Some? ==> var i := Find(dir, name).value; Live(dir, i) && Matches(EntryAt(dir, i), name)
  {
    hide Matches, EntryOf, FindIn, Listing;
    var list := Listing(dir, 0);
    forall i: nat | Live(dir, i) ensures (i, EntryAt(dir, i)) in list {
      ListingLive(dir, 0, (i, EntryAt(dir, i)));
    }
    forall k | 0 <= k < |list| ensures Live(dir, list[k].0) && list[k].1 == EntryAt(dir, list[k].0) {
      ListingLive(dir, 0, list[k]);
    }
    if Find(dir, name).None? {
      forall i: nat | Live(dir, i) ensures !Matches(EntryAt(dir, i), name) {
        assert (i, EntryAt(dir, i)) in list;
      }
    }
  }
}
