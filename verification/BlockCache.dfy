/**
 The sector cache: write-through, second-chance clock eviction, coalesced misses and
 sequential read-ahead over one drive.
 */
module BlockCache {
  import opened Bytes

  const SECTOR_SIZE: nat := 512
  const CACHE_ENTRIES: nat := 2048
  const READ_AHEAD: nat := 4

  type Sector = s: seq<byte> | |s| == 512 witness seq(512, i => 0)

  datatype Entry = Entry(lba: nat, valid: bool, dwell: bool, data: Sector)

  datatype AtaResult<+T> = Ok(value: T) | Failed

  // ---- the clock, on values ----

  /** An entry the clock passes over once before it may go. */
  predicate Dwells(e: Entry) {
    e.valid && e.dwell
  }

  ghost function Dwellers(es: seq<Entry>): set<nat> {
    set i: nat | i < |es| && Dwells(es[i])
  }

  function Next(es: seq<Entry>, hand: nat): nat
    requires hand < |es|
  {
    if hand + 1 == |es| then 0 else hand + 1
  }

  function Pass(es: seq<Entry>, hand: nat): seq<Entry>
    requires hand < |es|
  {
    es[hand := es[hand].(dwell := false)]
  }

  lemma PassShrinks(es: seq<Entry>, hand: nat)
    requires hand < |es| && Dwells(es[hand])
    ensures Dwellers(Pass(es, hand)) == Dwellers(es) - {hand}
    ensures |Dwellers(Pass(es, hand))| < |Dwellers(es)|
  {
    assert Dwellers(es) == Dwellers(Pass(es, hand)) + {hand};
  }

  /** The sweep: clear second-chance bits until the hand stands on a slot that may go. */
  ghost function Sweep(es: seq<Entry>, hand: nat): (r: (seq<Entry>, nat))
    requires hand < |es|
    ensures |r.0| == |es| && r.1 < |es| && !Dwells(r.0[r.1])
    ensures forall i :: 0 <= i < |es| ==> r.0[i] == es[i].(dwell := r.0[i].dwell)
    decreases |Dwellers(es)|
  {
    if Dwells(es[hand]) then
      PassShrinks(es, hand);
      Sweep(Pass(es, hand), Next(es, hand))
    else (es, hand)
  }

  lemma SweepStep(es: seq<Entry>, hand: nat)
    requires hand < |es|
    ensures Dwells(es[hand]) ==> Sweep(es, hand) == Sweep(Pass(es, hand), Next(es, hand)) && |Dwellers(Pass(es, hand))| < |Dwellers(es)|
    ensures !Dwells(es[hand]) ==> Sweep(es, hand) == (es, hand)
  {
    if Dwells(es[hand]) { PassShrinks(es, hand); }
  }

  predicate Matches(e: Entry, lba: nat) {
    e.valid && e.lba == lba
  }

  ghost predicate Cached(es: seq<Entry>, lba: nat) {
    exists i :: 0 <= i < |es| && Matches(es[i], lba)
  }

  /** The first slot at or after `i` that holds `lba`, or the number of slots. */
  function FirstMatch(es: seq<Entry>, lba: nat, i: nat): (r: nat)
    requires i <= |es|
    ensures i <= r <= |es|
    ensures forall j :: i <= j < r ==> !Matches(es[j], lba)
    ensures r < |es| ==> Matches(es[r], lba)
    decreases |es| - i
  {
    if i == |es| || Matches(es[i], lba) then i else FirstMatch(es, lba, i + 1)
  }

  /** The slots and the hand after an insertion: in place when cached, else over the victim. */
  ghost function Inserted(es: seq<Entry>, hand: nat, lba: nat, data: Sector): (r: (seq<Entry>, nat))
    requires hand < |es|
    ensures |r.0| == |es| && r.1 < |es|
  {
    var i := FirstMatch(es, lba, 0);
    if i < |es| then (es[i := es[i].(data := data, dwell := true)], hand)
    else
      var (fs, slot) := Sweep(es, hand);
      (fs[slot := Entry(lba, true, true, data)], Next(es, slot))
  }

  /** The slot that an insertion writes. */
  ghost function Target(es: seq<Entry>, hand: nat, lba: nat): (r: nat)
    requires hand < |es|
    ensures r < |es|
  {
    var i := FirstMatch(es, lba, 0);
    if i < |es| then i else Sweep(es, hand).1
  }

  /**
   One insertion writes one slot; every other slot keeps its sector. A sector that was
   cached is never displaced by its own insertion.
   */
  lemma InsertEvictsOne(es: seq<Entry>, hand: nat, lba: nat, data: Sector)
    requires hand < |es|
    ensures var r := Inserted(es, hand, lba, data).0; var t := Target(es, hand, lba);
      && r[t] == Entry(lba, true, true, data)
      && (forall i :: 0 <= i < |es| && i != t ==> r[i] == es[i].(dwell := r[i].dwell))
      && (Cached(es, lba) ==> Matches(es[t], lba))
  {
  }

  /** No sector sits in two slots, and outside lo..hi every slot agrees with the disk. */
  ghost predicate Coherent(es: seq<Entry>, disk: seq<Sector>, lo: nat, hi: nat) {
    && (forall i, j :: 0 <= i < j < |es| && es[i].valid && es[j].valid ==> es[i].lba != es[j].lba)
    && (forall i :: 0 <= i < |es| && es[i].valid ==>
          es[i].lba < |disk| && (lo <= es[i].lba < hi || es[i].data == disk[es[i].lba]))
  }

  lemma InsertCoherent(es: seq<Entry>, hand: nat, lba: nat, data: Sector, disk: seq<Sector>, lo: nat, hi: nat)
    requires hand < |es| && Coherent(es, disk, lo, hi)
    requires lba < |disk| && data == disk[lba]
    ensures Coherent(Inserted(es, hand, lba, data).0, disk, if lba == lo then lo + 1 else lo, hi)
  {
    hide Sweep;
    InsertEvictsOne(es, hand, lba, data);
    var r, t := Inserted(es, hand, lba, data).0, Target(es, hand, lba);
    assert forall i :: 0 <= i < |es| && i != t && r[i].valid ==> es[i].valid && es[i].lba == r[i].lba && es[i].data == r[i].data && es[i].lba != lba;
  }

  // ---- how far the hand moves ----

  ghost function SweepLength(es: seq<Entry>, hand: nat): (n: nat)
    requires hand < |es|
    ensures n <= |Dwellers(es)|
    decreases |Dwellers(es)|
  {
    if Dwells(es[hand]) then
      PassShrinks(es, hand);
      1 + SweepLength(Pass(es, hand), Next(es, hand))
    else 0
  }

  lemma {:induction false} SubsetSize(a: set<nat>, n: nat)
    requires forall x :: x in a ==> x < n
    ensures |a| <= n
  {
    if n > 0 {
      SubsetSize(a - {n - 1}, n - 1);
      if n - 1 !in a { assert a - {n - 1} == a; }
    } else {
      assert a == {};
    }
  }

  /** The hand passes over each slot at most once, and then stops on its victim. */
  lemma {:induction false} HandMoves(es: seq<Entry>, hand: nat)
    requires hand < |es|
    ensures SweepLength(es, hand) <= |es|
    ensures var to := hand + SweepLength(es, hand); Sweep(es, hand).1 == if to < |es| then to else to - |es|
    decreases |Dwellers(es)|
  {
    SubsetSize(Dwellers(es), |es|);
    if Dwells(es[hand]) {
      PassShrinks(es, hand);
      HandMoves(Pass(es, hand), Next(es, hand));
    }
  }

  // ---- residency ----

  /** Slots the hand has to cross to reach `i`. */
  function Ahead(n: nat, hand: nat, i: nat): nat
    requires hand < n && i < n
  {
    if i >= hand then i - hand else i + n - hand
  }

  /**
   `fresh` holds slots filled since the run of insertions began. A fresh slot that has used
   its second chance lies behind every slot that is not fresh, and those have none left; a
   fresh slot that still has its chance has no chance left unused beyond it.
   */
  ghost predicate Guarded(es: seq<Entry>, hand: nat, recent: set<nat>)
    requires hand < |es|
  {
    && (forall j :: j in recent ==> j < |es| && es[j].valid)
    && (forall i, j :: j in recent && 0 <= i < |es| && i !in recent ==>
          && (!Dwells(es[j]) ==> !Dwells(es[i]) && Ahead(|es|, hand, i) < Ahead(|es|, hand, j))
          && (Dwells(es[j]) && Ahead(|es|, hand, i) > Ahead(|es|, hand, j) ==> !Dwells(es[i])))
  }

  lemma AheadStep(n: nat, hand: nat, i: nat)
    requires hand < n && i < n
    ensures Ahead(n, if hand + 1 == n then 0 else hand + 1, i) == if i == hand then n - 1 else Ahead(n, hand, i) - 1
  {
  }

  lemma GuardedPass(es: seq<Entry>, hand: nat, recent: set<nat>)
    requires hand < |es| && Guarded(es, hand, recent) && Dwells(es[hand])
    ensures Guarded(Pass(es, hand), Next(es, hand), recent)
  {
    forall i | 0 <= i < |es| ensures Ahead(|es|, Next(es, hand), i) == if i == hand then |es| - 1 else Ahead(|es|, hand, i) - 1 {
      AheadStep(|es|, hand, i);
    }
  }

  lemma VictimNotRecent(es: seq<Entry>, hand: nat, recent: set<nat>)
    requires hand < |es| && Guarded(es, hand, recent) && (exists i :: 0 <= i < |es| && i !in recent)
    requires !Dwells(es[hand])
    ensures hand !in recent
  {
    var i :| 0 <= i < |es| && i !in recent;
    assert Ahead(|es|, hand, hand) == 0;
  }

  /** While a slot is left over, the sweep never takes a fresh one. */
  lemma {:induction false} GuardedSweep(es: seq<Entry>, hand: nat, recent: set<nat>)
    requires hand < |es| && Guarded(es, hand, recent) && (exists i :: 0 <= i < |es| && i !in recent)
    ensures var r := Sweep(es, hand); r.1 !in recent && Guarded(r.0, r.1, recent)
    decreases |Dwellers(es)|
  {
    hide Guarded;
    if Dwells(es[hand]) {
      PassShrinks(es, hand);
      GuardedPass(es, hand, recent);
      GuardedSweep(Pass(es, hand), Next(es, hand), recent);
    } else {
      VictimNotRecent(es, hand, recent);
    }
  }

  lemma GuardedFill(es: seq<Entry>, slot: nat, recent: set<nat>, e: Entry)
    requires slot < |es| && Guarded(es, slot, recent) && slot !in recent && !Dwells(es[slot]) && Dwells(e)
    ensures Guarded(es[slot := e], Next(es, slot), recent + {slot})
  {
    forall i | 0 <= i < |es| ensures Ahead(|es|, Next(es, slot), i) == if i == slot then |es| - 1 else Ahead(|es|, slot, i) - 1 {
      AheadStep(|es|, slot, i);
    }
  }

  /** A run of insertions with no lookup in between. */
  ghost function InsertedAll(es: seq<Entry>, hand: nat, run: seq<(nat, Sector)>): (r: (seq<Entry>, nat))
    requires hand < |es|
    ensures |r.0| == |es| && r.1 < |es|
  {
    if run == [] then (es, hand)
    else
      var (fs, h) := InsertedAll(es, hand, run[..|run| - 1]);
      Inserted(fs, h, run[|run| - 1].0, run[|run| - 1].1)
  }

  ghost predicate Holds(es: seq<Entry>, recent: set<nat>, x: (nat, Sector)) {
    exists i :: i in recent && i < |es| && Matches(es[i], x.0) && es[i].data == x.1
  }

  /** Every insertion of the run still sits in some slot of `recent`. */
  ghost predicate Resident(es: seq<Entry>, run: seq<(nat, Sector)>, recent: set<nat>) {
    forall k :: 0 <= k < |run| ==> Holds(es, recent, run[k])
  }

  /** Distinct sectors, none of them cached. */
  ghost predicate AllNew(es: seq<Entry>, run: seq<(nat, Sector)>) {
    && (forall j, k :: 0 <= j < k < |run| ==> run[j].0 != run[k].0)
    && (forall k :: 0 <= k < |run| ==> !Cached(es, run[k].0))
  }

  /** Insertions cache nothing but what was inserted. */
  lemma {:induction false} InsertAllCaches(es: seq<Entry>, hand: nat, run: seq<(nat, Sector)>, lba: nat)
    requires hand < |es| && !Cached(es, lba) && (forall k :: 0 <= k < |run| ==> run[k].0 != lba)
    ensures !Cached(InsertedAll(es, hand, run).0, lba)
    decreases |run|
  {
    hide Sweep;
    if run != [] {
      var k := |run| - 1;
      InsertAllCaches(es, hand, run[..k], lba);
      var (fs, h) := InsertedAll(es, hand, run[..k]);
      InsertEvictsOne(fs, h, run[k].0, run[k].1);
    }
  }

  lemma ResidentStep(fs: seq<Entry>, was: set<nat>, out: seq<Entry>, slot: nat, x: (nat, Sector), run: seq<(nat, Sector)>)
    requires Resident(fs, run, was) && slot < |fs| == |out| && slot !in was
    requires out[slot] == Entry(x.0, true, true, x.1)
    requires forall i :: 0 <= i < |fs| && i != slot ==> out[i] == fs[i].(dwell := out[i].dwell)
    ensures Resident(out, run + [x], was + {slot})
  {
    var recent := was + {slot};
    forall j | 0 <= j < |run| + 1 ensures Holds(out, recent, (run + [x])[j]) {
      if j == |run| {
        assert slot in recent;
      } else {
        assert Holds(fs, was, run[j]);
        var i :| i in was && i < |fs| && Matches(fs[i], run[j].0) && fs[i].data == run[j].1;
        assert i in recent && out[i] == fs[i].(dwell := out[i].dwell);
      }
    }
  }

  lemma InsertGuarded(fs: seq<Entry>, h: nat, was: set<nat>, x: (nat, Sector), run: seq<(nat, Sector)>)
    returns (slot: nat)
    requires h < |fs| && Guarded(fs, h, was) && |was| < |fs| && !Cached(fs, x.0) && Resident(fs, run, was)
    ensures slot !in was
    ensures var (out, g) := Inserted(fs, h, x.0, x.1); Guarded(out, g, was + {slot}) && Resident(out, run + [x], was + {slot})
  {
    hide Dwellers, Sweep, Guarded, Resident;
    SpareSlot(was, |fs|);
    GuardedSweep(fs, h, was);
    InsertEvictsOne(fs, h, x.0, x.1);
    var (gs, s) := Sweep(fs, h);
    slot := s;
    GuardedFill(gs, slot, was, Entry(x.0, true, true, x.1));
    ResidentStep(fs, was, Inserted(fs, h, x.0, x.1).0, slot, x, run);
  }

  lemma {:induction false} ResidencyRun(es: seq<Entry>, hand: nat, run: seq<(nat, Sector)>) returns (recent: set<nat>)
    requires hand < |es| && |run| <= |es| && AllNew(es, run)
    ensures var (fs, h) := InsertedAll(es, hand, run); Guarded(fs, h, recent) && Resident(fs, run, recent)
    ensures |recent| == |run|
    decreases |run|
  {
    hide Inserted;
    if run == [] {
      recent := {};
    } else {
      hide Guarded, Resident;
      var k := |run| - 1;
      var was := ResidencyRun(es, hand, run[..k]);
      var (fs, h) := InsertedAll(es, hand, run[..k]);
      InsertAllCaches(es, hand, run[..k], run[k].0);
      var slot := InsertGuarded(fs, h, was, run[k], run[..k]);
      assert run[..k] + [run[k]] == run;
      recent := was + {slot};
    }
  }

  lemma SpareSlot(recent: set<nat>, n: nat)
    requires |recent| < n
    ensures exists i :: 0 <= i < n && i !in recent
  {
    if forall i :: 0 <= i < n ==> i in recent {
      var all := Below(n);
      SubsetCard(all, recent);
    }
  }

  ghost function Below(n: nat): (s: set<nat>)
    ensures |s| == n && forall i :: i in s <==> 0 <= i < n
  {
    if n == 0 then {} else Below(n - 1) + {n - 1}
  }

  lemma {:induction false} SubsetCard(a: set<nat>, b: set<nat>)
    requires a <= b
    ensures |a| <= |b|
  {
    if a != {} {
      var x :| x in a;
      SubsetCard(a - {x}, b - {x});
    }
  }

  /**
   Clock residency: from any cache state, inserting as many distinct uncached sectors as
   there are slots, with no lookup in between, leaves every one of them cached with its data.
   */
  lemma Residency(es: seq<Entry>, hand: nat, run: seq<(nat, Sector)>)
    requires hand < |es| && |run| <= |es| && AllNew(es, run)
    ensures forall k :: 0 <= k < |run| ==> Cached(InsertedAll(es, hand, run).0, run[k].0)
  {
    var recent := ResidencyRun(es, hand, run);
    forall k | 0 <= k < |run| ensures Cached(InsertedAll(es, hand, run).0, run[k].0) {
      assert Holds(InsertedAll(es, hand, run).0, recent, run[k]);
    }
  }

  // ---- the drive and the cache ----

  /** A drive: it refuses sectors it does not have, and any access may fail, which it counts. */
  class Drive {
    var sectors: seq<Sector>
    var faults: nat

    method ReadRaw(lba: nat, count: nat) returns (r: AtaResult<seq<Sector>>)
      requires 0 < count < 256
      modifies this`faults
      ensures r.Ok? ==> lba + count <= |sectors| && r.value == sectors[lba..lba + count] && faults == old(faults)
      ensures r.Failed? ==> lba + count > |sectors| || faults == old(faults) + 1
      ensures old(faults) <= faults
    {
      if lba + count > |sectors| { return Failed; }
      var fault: bool := *;
      if fault {
        faults := faults + 1;
        return Failed;
      }
      return Ok(sectors[lba..lba + count]);
    }

    method WriteRaw(lba: nat, data: seq<Sector>) returns (ok: bool)
      requires 0 < |data| < 256
      modifies this
      ensures ok ==> lba + |data| <= |old(sectors)|
      ensures ok ==> sectors == old(sectors)[..lba] + data + old(sectors)[lba + |data|..]
      ensures !ok ==> sectors == old(sectors) && (lba + |data| > |sectors| || faults == old(faults) + 1)
    {
      if lba + |data| > |sectors| { return false; }
      var fault: bool := *;
      if fault {
        faults := faults + 1;
        return false;
      }
      sectors := sectors[..lba] + data + sectors[lba + |data|..];
      return true;
    }
  }

  /** Consecutive sectors paired with their addresses. */
  ghost function Numbered(start: nat, data: seq<Sector>): (r: seq<(nat, Sector)>)
    ensures |r| == |data| && forall k :: 0 <= k < |r| ==> r[k] == (start + k, data[k])
  {
    seq(|data|, k requires 0 <= k < |data| => (start + k, data[k]))
  }

  lemma NumberedStep(start: nat, data: seq<Sector>, k: nat)
    requires k < |data|
    ensures var run := Numbered(start, data[..k + 1]); run[..k] == Numbered(start, data[..k]) && run[k] == (start + k, data[k])
  {
  }

  ghost predicate AllCached(es: seq<Entry>, lba: nat, count: nat) {
    forall x: nat :: lba <= x < lba + count ==> Cached(es, x)
  }

  ghost predicate NoneCached(es: seq<Entry>, lba: nat, count: nat) {
    forall x: nat :: lba <= x < lba + count ==> !Cached(es, x)
  }

  /** A hit finds the drive's data, and setting its second-chance bit keeps all that is cached. */
  lemma Hit(es: seq<Entry>, lba: nat, disk: seq<Sector>)
    requires Coherent(es, disk, 0, 0)
    ensures Cached(es, lba) <==> FirstMatch(es, lba, 0) < |es|
    ensures var i := FirstMatch(es, lba, 0); i < |es| ==> var fs := es[i := es[i].(dwell := true)];
      && lba < |disk| && es[i].data == disk[lba] && Coherent(fs, disk, 0, 0)
      && forall x: nat :: Cached(es, x) <==> Cached(fs, x)
  {
    var i := FirstMatch(es, lba, 0);
    if i < |es| {
      var fs := es[i := es[i].(dwell := true)];
      forall x: nat ensures Cached(es, x) <==> Cached(fs, x) {
        assert forall j :: 0 <= j < |es| ==> (Matches(es[j], x) <==> Matches(fs[j], x));
      }
    }
  }

  /** Nothing is cached that was not before, outside lo..hi. */
  ghost predicate OnlyAdded(es: seq<Entry>, fs: seq<Entry>, lo: nat, hi: nat) {
    forall x: nat :: Cached(fs, x) && !(lo <= x < hi) ==> Cached(es, x)
  }

  lemma InsertAddsOnly(es: seq<Entry>, hand: nat, start: nat, data: seq<Sector>)
    requires hand < |es|
    ensures OnlyAdded(es, InsertedAll(es, hand, Numbered(start, data)).0, start, start + |data|)
  {
    hide Cached, InsertedAll;
    var run := Numbered(start, data);
    forall x: nat | !Cached(es, x) && !(start <= x < start + |data|) ensures !Cached(InsertedAll(es, hand, run).0, x) {
      InsertAllCaches(es, hand, run, x);
    }
  }

  lemma OnlyAddedTrans(es: seq<Entry>, fs: seq<Entry>, gs: seq<Entry>, lo: nat, mid: nat, top: nat, hi: nat)
    requires OnlyAdded(es, fs, lo, hi) && OnlyAdded(fs, gs, mid, top) && lo <= mid && top <= hi
    ensures OnlyAdded(es, gs, lo, hi)
  {
  }

  lemma NoneExcepted(es: seq<Entry>, disk: seq<Sector>, lo: nat)
    ensures Coherent(es, disk, lo, 0) <==> Coherent(es, disk, 0, 0)
  {
  }

  /** What a read has gathered so far is what the drive holds there. */
  ghost predicate Fetched(disk: seq<Sector>, lba: nat, buf: seq<Sector>) {
    buf == [] || (lba + |buf| <= |disk| && buf == disk[lba..lba + |buf|])
  }

  lemma FetchMore(disk: seq<Sector>, lba: nat, buf: seq<Sector>, more: seq<Sector>)
    requires Fetched(disk, lba, buf) && lba + |buf| + |more| <= |disk|
    requires more == disk[lba + |buf|..lba + |buf| + |more|]
    ensures Fetched(disk, lba, buf + more)
  {
  }

  lemma AddedNothing(es: seq<Entry>, lo: nat, hi: nat)
    ensures OnlyAdded(es, es, lo, hi)
  {
  }

  lemma AddedMore(es: seq<Entry>, fs: seq<Entry>, lo: nat, hi: nat, more: nat)
    requires OnlyAdded(es, fs, lo, hi)
    ensures OnlyAdded(es, fs, lo, hi + more)
  {
  }

  lemma NothingFetched(disk: seq<Sector>, lba: nat)
    ensures Fetched(disk, lba, [])
  {
  }

  lemma FetchedAll(disk: seq<Sector>, lba: nat, buf: seq<Sector>)
    requires Fetched(disk, lba, buf) && buf != []
    ensures lba + |buf| <= |disk| && buf == disk[lba..lba + |buf|]
  {
  }

  lemma NotWarm(es: seq<Entry>, lba: nat, count: nat, x: nat)
    requires AllCached(es, lba, count) && lba <= x < lba + count
    ensures Cached(es, x)
  {
  }

  lemma StaysWarm(es: seq<Entry>, fs: seq<Entry>, lba: nat, count: nat)
    requires AllCached(es, lba, count) && forall x: nat :: Cached(es, x) ==> Cached(fs, x)
    ensures AllCached(fs, lba, count)
  {
  }

  lemma WrittenCoherent(es: seq<Entry>, disk: seq<Sector>, lba: nat, data: seq<Sector>)
    requires Coherent(es, disk, 0, 0) && lba + |data| <= |disk|
    ensures Coherent(es, disk[..lba] + data + disk[lba + |data|..], lba, lba + |data|)
  {
  }

  /** A run of at most as many new sectors as there are slots is cached once inserted. */
  lemma WarmAfter(es: seq<Entry>, hand: nat, start: nat, data: seq<Sector>)
    requires hand < |es| && |data| <= |es|
    requires NoneCached(es, start, |data|)
    ensures AllCached(InsertedAll(es, hand, Numbered(start, data)).0, start, |data|)
  {
    hide InsertedAll, Cached;
    var run := Numbered(start, data);
    Residency(es, hand, run);
    forall x | start <= x < start + |data| ensures Cached(InsertedAll(es, hand, run).0, x) {
      assert run[x - start].0 == x;
    }
  }

  class Cache {
    const entries: array<Entry>
    var next: nat
    var hits: nat
    var misses: nat
    var lastSeqEnd: nat
    var seqValid: bool

    ghost predicate Shape()
      reads this
    {
      entries.Length == CACHE_ENTRIES && next < CACHE_ENTRIES
    }

    /** What every operation keeps: one slot per sector, and each slot what the drive holds. */
    ghost predicate Valid(d: Drive)
      reads this, entries, d`sectors
    {
      Shape() && Coherent(entries[..], d.sectors, 0, 0)
    }

    ghost predicate Has(lba: nat)
      reads entries
    {
      Cached(entries[..], lba)
    }

    constructor (d: Drive)
      ensures Valid(d) && fresh(entries) && hits == misses == 0 && !seqValid
      ensures forall lba :: !Has(lba)
    {
      entries := new Entry[CACHE_ENTRIES](i => Entry(0, false, false, seq<byte>(SECTOR_SIZE, j => 0)));
      next, hits, misses, lastSeqEnd, seqValid := 0, 0, 0, 0, false;
    }

    method Find(lba: nat) returns (r: AtaResult<Sector>)
      requires Shape()
      modifies entries
      ensures r.Ok? <==> old(Has(lba))
      ensures var i := FirstMatch(old(entries[..]), lba, 0);
        if i < entries.Length then r == Ok(old(entries[..])[i].data) && entries[..] == old(entries[..])[i := old(entries[..])[i].(dwell := true)]
        else entries[..] == old(entries[..])
    {
      var i := 0;
      while i < entries.Length && !Matches(entries[i], lba)
        invariant i <= entries.Length
        invariant forall j :: 0 <= j < i ==> !Matches(entries[j], lba)
        invariant entries[..] == old(entries[..])
      {
        i := i + 1;
      }
      if i == entries.Length { return Failed; }
      assert Matches(entries[..][i], lba);
      r := Ok(entries[i].data);
      entries[i] := entries[i].(dwell := true);
    }

    method Contains(lba: nat) returns (r: bool)
      requires Shape()
      ensures r <==> Has(lba)
    {
      var i := 0;
      while i < entries.Length
        invariant i <= entries.Length
        invariant forall j :: 0 <= j < i ==> !Matches(entries[j], lba)
      {
        if Matches(entries[i], lba) {
          assert Matches(entries[..][i], lba);
          return true;
        }
        i := i + 1;
      }
      return false;
    }

    method Insert(lba: nat, data: Sector)
      requires Shape()
      modifies this`next, entries
      ensures Shape()
      ensures (entries[..], next) == Inserted(old(entries[..]), old(next), lba, data)
    {
      var i := 0;
      while i < entries.Length
        invariant i <= entries.Length
        invariant forall j :: 0 <= j < i ==> !Matches(entries[j], lba)
        invariant entries[..] == old(entries[..])
      {
        if Matches(entries[i], lba) {
          entries[i] := entries[i].(data := data, dwell := true);
          assert entries[..] == old(entries[..])[i := old(entries[..])[i].(data := data, dwell := true)];
          return;
        }
        i := i + 1;
      }
      Displace(lba, data);
    }

    /** The clock sweep for a sector that is not cached. */
    method Displace(lba: nat, data: Sector)
      requires Shape()
      modifies this`next, entries
      ensures Shape()
      ensures var (fs, slot) := Sweep(old(entries[..]), old(next));
        entries[..] == fs[slot := Entry(lba, true, true, data)] && next == Next(fs, slot)
    {
      hide Sweep, Dwellers;
      while true
        invariant Shape()
        invariant Sweep(entries[..], next) == Sweep(old(entries[..]), old(next))
        decreases |Dwellers(entries[..])|
      {
        var at := next;
        var e := entries[at];
        ghost var es := entries[..];
        SweepStep(es, at);
        next := (next + 1) % CACHE_ENTRIES;
        if !e.valid {
          Overwrite(at, lba, data);
          return;
        }
        if e.dwell {
          entries[at] := e.(dwell := false);
          assert entries[..] == Pass(es, at);
          continue;
        }
        Overwrite(at, lba, data);
        return;
      }
    }

    method Overwrite(at: nat, lba: nat, data: Sector)
      requires at < entries.Length
      modifies entries
      ensures entries[..] == old(entries[..])[at := Entry(lba, true, true, data)]
    {
      entries[at] := Entry(lba, true, true, data);
    }

    /** Insert sectors that were just moved between the drive and a buffer. */
    method InsertRun(d: Drive, start: nat, data: seq<Sector>, ghost hi: nat)
      requires Shape() && Coherent(entries[..], d.sectors, start, hi)
      requires start + |data| <= |d.sectors| && data == d.sectors[start..start + |data|]
      modifies this`next, entries
      ensures Shape() && Coherent(entries[..], d.sectors, start + |data|, hi)
      ensures (entries[..], next) == InsertedAll(old(entries[..]), old(next), Numbered(start, data))
    {
      hide Inserted, Coherent;
      var k := 0;
      while k < |data|
        invariant k <= |data| && Shape()
        invariant Coherent(entries[..], d.sectors, start + k, hi)
        invariant (entries[..], next) == InsertedAll(old(entries[..]), old(next), Numbered(start, data[..k]))
      {
        InsertCoherent(entries[..], next, start + k, data[k], d.sectors, start + k, hi);
        NumberedStep(start, data, k);
        Insert(start + k, data[k]);
        k := k + 1;
      }
      assert data[..|data|] == data;
    }

    /** Insert what a raw read returned. */
    method InsertRead(d: Drive, start: nat, data: seq<Sector>)
      requires Valid(d) && start + |data| <= |d.sectors| && data == d.sectors[start..start + |data|]
      modifies this`next, entries
      ensures Valid(d) && OnlyAdded(old(entries[..]), entries[..], start, start + |data|)
      ensures NoneCached(old(entries[..]), start, |data|) && |data| <= CACHE_ENTRIES ==> AllCached(entries[..], start, |data|)
    {
      hide Coherent, InsertedAll, Cached, AllCached, NoneCached;
      ghost var es := entries[..];
      ghost var hand := next;
      NoneExcepted(entries[..], d.sectors, start);
      InsertRun(d, start, data, 0);
      NoneExcepted(entries[..], d.sectors, start + |data|);
      InsertAddsOnly(es, hand, start, data);
      if NoneCached(es, start, |data|) && |data| <= CACHE_ENTRIES { WarmAfter(es, hand, start, data); }
    }

    /** One coalesced miss: the longest run of uncached sectors from lba + i, in one raw read. */
    method ReadMisses(d: Drive, lba: nat, i: nat, count: nat) returns (r: AtaResult<seq<Sector>>)
      requires Valid(d) && i < count < 256 && !Has(lba + i)
      modifies this`next, this`misses, entries, d`faults
      ensures Valid(d) && OnlyAdded(old(entries[..]), entries[..], lba, lba + count)
      ensures r.Ok? ==> NoneCached(old(entries[..]), lba + i, |r.value|)
      ensures r.Ok? ==> i + |r.value| == count || old(Has(lba + i + |r.value|))
      ensures r.Ok? ==> 0 < |r.value| <= count - i && misses == old(misses) + |r.value|
      ensures r.Ok? ==> lba + i + |r.value| <= |d.sectors| && r.value == d.sectors[lba + i..lba + i + |r.value|]
      ensures !r.Ok? ==> misses == old(misses) && (lba + count > |d.sectors| || d.faults > old(d.faults))
      ensures old(d.faults) <= d.faults
    {
      hide Coherent, Cached;
      ghost var es := entries[..];
      var run := 1;
      while i + run < count
        modifies {}
        invariant 1 <= run && i + run <= count && entries[..] == es && NoneCached(es, lba + i, run)
      {
        var has := Contains(lba + i + run);
        if has { break; }
        run := run + 1;
      }
      r := d.ReadRaw(lba + i, run);
      if r.Failed? { return; }
      InsertRead(d, lba + i, r.value);
      OnlyAddedTrans(es, es, entries[..], lba, lba + i, lba + i + run, lba + count);
      misses := misses + run;
    }

    /**
     Best-effort prefetch of the sectors after a sequential read: nothing else is brought in,
     and if none of them was cached and the drive delivers, all of them are.
     */
    method ReadAhead(d: Drive)
      requires Valid(d)
      modifies this`next, entries, d`faults
      ensures Valid(d) && OnlyAdded(old(entries[..]), entries[..], lastSeqEnd, lastSeqEnd + READ_AHEAD)
      ensures NoneCached(old(entries[..]), lastSeqEnd, READ_AHEAD) && lastSeqEnd + READ_AHEAD <= |d.sectors| && d.faults == old(d.faults) ==>
        AllCached(entries[..], lastSeqEnd, READ_AHEAD)
    {
      hide Coherent, Cached;
      ghost var es := entries[..];
      ghost var cold := NoneCached(es, lastSeqEnd, READ_AHEAD) && lastSeqEnd + READ_AHEAD <= |d.sectors|;
      var k := 0;
      while k < READ_AHEAD
        invariant Valid(d) && OnlyAdded(es, entries[..], lastSeqEnd, lastSeqEnd + READ_AHEAD) && old(d.faults) <= d.faults
        invariant cold && k == 0 ==> entries[..] == es
        invariant cold && k > 0 ==> k >= READ_AHEAD
        invariant cold && k > 0 && d.faults == old(d.faults) ==> AllCached(entries[..], lastSeqEnd, READ_AHEAD)
      {
        ghost var fs := entries[..];
        var s := lastSeqEnd + k;
        var has := Contains(s);
        if has {
          k := k + 1;
          continue;
        }
        var run := 1;
        while run < READ_AHEAD - k
          modifies {}
          invariant 1 <= run <= READ_AHEAD - k && entries[..] == fs
        {
          var more := Contains(s + run);
          if more { break; }
          run := run + 1;
        }
        assert cold ==> run == READ_AHEAD;
        var got := d.ReadRaw(s, run);
        if got.Ok? {
          InsertRead(d, s, got.value);
          OnlyAddedTrans(es, fs, entries[..], lastSeqEnd, s, s + run, lastSeqEnd + READ_AHEAD);
        }
        k := k + run;
      }
    }

    /**
     A cached read returns what the drive holds, counts every sector once as a hit or a miss,
     and needs nothing from the drive when every sector is cached.
     */
    method Read(d: Drive, lba: nat, count: nat) returns (r: AtaResult<seq<Sector>>)
      requires Valid(d) && 0 < count < 256
      modifies this, entries, d`faults
      ensures Valid(d)
      ensures r.Ok? ==> lba + count <= |d.sectors| && r.value == d.sectors[lba..lba + count]
      ensures r.Failed? ==> lba + count > |d.sectors| || d.faults > old(d.faults)
      ensures r.Ok? ==> hits + misses == old(hits + misses) + count && seqValid && lastSeqEnd == lba + count
      ensures AllCached(old(entries[..]), lba, count) ==> r.Ok? && misses == old(misses)
      ensures OnlyAdded(old(entries[..]), entries[..], lba,
                        lba + count + if old(seqValid) && lba == old(lastSeqEnd) then READ_AHEAD else 0)
    {
      hide Coherent, Cached, AllCached, Fetched, FirstMatch, OnlyAdded;
      ghost var start := entries[..];
      assert OnlyAdded(start, start, lba, lba + count) by { AddedNothing(start, lba, lba + count); }
      var sequential := seqValid && lba == lastSeqEnd;
      ghost var warm := AllCached(entries[..], lba, count);
      var buf: seq<Sector> := [];
      assert Fetched(d.sectors, lba, []) by { NothingFetched(d.sectors, lba); }
      while |buf| < count
        invariant Valid(d) && |buf| <= count && Fetched(d.sectors, lba, buf)
        invariant hits + misses == old(hits + misses) + |buf|
        invariant OnlyAdded(start, entries[..], lba, lba + count) && old(d.faults) <= d.faults
        invariant warm ==> misses == old(misses) && AllCached(entries[..], lba, count)
      {
        var f := TakeHit(d, lba + |buf|, start, lba, count);
        ghost var es := entries[..];
        if f.Ok? {
          FetchMore(d.sectors, lba, buf, [f.value]);
          buf := buf + [f.value];
          hits := hits + 1;
        } else {
          if warm { NotWarm(entries[..], lba, count, lba + |buf|); }
          var got := ReadMisses(d, lba, |buf|, count);
          OnlyAddedTrans(start, es, entries[..], lba, lba, lba + count, lba + count);
          if got.Failed? {
            AddedMore(start, entries[..], lba, lba + count, READ_AHEAD);
            return Failed;
          }
          FetchMore(d.sectors, lba, buf, got.value);
          buf := buf + got.value;
        }
      }
      FetchedAll(d.sectors, lba, buf);
      seqValid := true;
      lastSeqEnd := lba + count;
      if sequential {
        ghost var es := entries[..];
        ReadAhead(d);
        AddedMore(start, es, lba, lba + count, READ_AHEAD);
        OnlyAddedTrans(start, es, entries[..], lba, lba + count, lba + count + READ_AHEAD, lba + count + READ_AHEAD);
      }
      return Ok(buf);
    }

    /** Look one sector up; the cache stays what it was apart from the second chance. */
    method TakeHit(d: Drive, s: nat, ghost start: seq<Entry>, ghost lba: nat, ghost count: nat) returns (f: AtaResult<Sector>)
      requires Valid(d) && OnlyAdded(start, entries[..], lba, lba + count)
      modifies entries
      ensures Valid(d)
      ensures f.Ok? <==> old(Has(s))
      ensures f.Ok? ==> s < |d.sectors| && f.value == d.sectors[s]
      ensures f.Failed? ==> entries[..] == old(entries[..])
      ensures AllCached(old(entries[..]), lba, count) ==> AllCached(entries[..], lba, count)
      ensures OnlyAdded(start, entries[..], lba, lba + count)
    {
      hide Coherent, Cached, AllCached, FirstMatch;
      ghost var es := entries[..];
      Hit(es, s, d.sectors);
      f := Find(s);
      if AllCached(es, lba, count) { StaysWarm(es, entries[..], lba, count); }
    }

    /**
     A write reaches the drive first and the cache after it. Sectors that were not cached are
     all cached afterwards; a refused write changes nothing.
     */
    method Write(d: Drive, lba: nat, data: seq<Sector>) returns (ok: bool)
      requires Valid(d) && 0 < |data| < 256
      modifies this, entries, d
      ensures Valid(d)
      ensures ok ==> lba + |data| <= |old(d.sectors)|
      ensures ok ==> d.sectors == old(d.sectors)[..lba] + data + old(d.sectors)[lba + |data|..] && !seqValid
      ensures ok && NoneCached(old(entries[..]), lba, |data|) ==> AllCached(entries[..], lba, |data|)
      ensures !ok ==> d.sectors == old(d.sectors) && entries[..] == old(entries[..]) && (lba + |data| > |d.sectors| || d.faults > old(d.faults))
      ensures hits == old(hits) && misses == old(misses)
    {
      hide InsertedAll;
      ghost var es, hand, was := entries[..], next, d.sectors;
      ok := d.WriteRaw(lba, data);
      if !ok { return; }
      WrittenCoherent(es, was, lba, data);
      InsertRun(d, lba, data, lba + |data|);
      seqValid := false;
      if NoneCached(es, lba, |data|) {
        WarmAfter(es, hand, lba, data);
      }
    }

    method Flush()
      requires Shape()
      modifies this, entries
      ensures Shape() && !seqValid && hits == old(hits) && misses == old(misses)
      ensures forall lba :: !Has(lba)
      ensures forall d: Drive :: Valid(d)
    {
      var i := 0;
      while i < entries.Length
        invariant i <= entries.Length && Shape() && hits == old(hits) && misses == old(misses)
        invariant forall j :: 0 <= j < i ==> !entries[j].valid
      {
        entries[i] := entries[i].(valid := false, dwell := false);
        i := i + 1;
      }
      seqValid := false;
    }
  }
}
