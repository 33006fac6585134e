/**
 The physical frame allocator: a free list whose links live inside the free frames, and a
 bump cursor over the usable memory regions.
 */
module Frames {
  import opened Fs

  const SIZE: nat := 4096
  const LOW_LIMIT: nat := 0x10_0000
  const U64: nat := 0x1_0000_0000_0000_0000

  datatype Region = Region(start: nat, end: nat, usable: bool)

  /** The aligned address at or after `a`. */
  function AlignUp(a: nat): (r: nat)
    ensures a <= r < a + SIZE && r % SIZE == 0
  {
    (a + SIZE - 1) / SIZE * SIZE
  }

  lemma AlignLeast(a: nat, p: nat)
    requires a <= p && p % SIZE == 0
    ensures AlignUp(a) <= p
  {
  }

  // ---- the pages of a memory map ----

  predicate PageOf(r: Region, p: nat) {
    r.usable && r.start <= p && p + SIZE <= r.end && p % SIZE == 0
  }

  /** Every whole aligned page inside a usable region. */
  ghost function Pages(regions: seq<Region>): (ps: set<nat>)
    ensures forall p :: p in ps <==> exists i :: 0 <= i < |regions| && PageOf(regions[i], p)
  {
    if regions == [] then {}
    else
      var n := |regions| - 1;
      var ps := Pages(regions[..n]) + (set p: nat | p < regions[n].end && PageOf(regions[n], p));
      assert forall p :: p in Pages(regions[..n]) ==> exists i :: 0 <= i < n && PageOf(regions[..n][i], p) && PageOf(regions[i], p);
      assert forall i, p :: 0 <= i < n && PageOf(regions[i], p) ==> PageOf(regions[..n][i], p);
      ps
  }

  /** Page 0 doubles as the empty list, so no usable region may hold it. */
  predicate NoZeroPage(regions: seq<Region>) {
    forall i :: 0 <= i < |regions| && regions[i].usable ==> 0 < regions[i].start
  }

  predicate Ascending(regions: seq<Region>) {
    forall i, j :: 0 <= i < j < |regions| && regions[i].usable && regions[j].usable ==> regions[i].end <= regions[j].start
  }

  predicate PageAligned(regions: seq<Region>) {
    forall i :: 0 <= i < |regions| && regions[i].usable ==>
      regions[i].start % SIZE == 0 && regions[i].end % SIZE == 0 && regions[i].start <= regions[i].end
  }

  /** Where the scan would place the next page of `r`. */
  function Candidate(r: Region, bump: nat): nat {
    Max(AlignUp(r.start), bump)
  }

  lemma CandidateLeast(r: Region, bump: nat, p: nat)
    requires bump % SIZE == 0 && bump <= p && PageOf(r, p)
    ensures Candidate(r, bump) <= p && PageOf(r, Candidate(r, bump))
  {
    AlignLeast(r.start, p);
  }

  // ---- how many pages ----

  /** The pages of one run of `n`. */
  ghost function Span(first: nat, n: nat): (s: set<nat>)
    ensures |s| == n
    ensures forall p :: p in s ==> first <= p < first + n * SIZE
  {
    if n == 0 then {} else Span(first, n - 1) + {first + (n - 1) * SIZE}
  }

  predicate Aligned(p: nat) {
    p % SIZE == 0
  }

  lemma NextAligned(a: nat, p: nat)
    requires Aligned(a) && Aligned(p) && a <= p < a + SIZE
    ensures p == a
  {
  }

  lemma AlignedPlus(first: nat, k: nat)
    requires Aligned(first)
    ensures Aligned(first + k * SIZE)
  {
  }

  lemma {:induction false} SpanAligned(first: nat, n: nat, p: nat)
    requires Aligned(first)
    ensures p in Span(first, n) <==> first <= p < first + n * SIZE && Aligned(p)
  {
    hide Aligned;
    if n > 0 {
      SpanAligned(first, n - 1, p);
      var top := first + (n - 1) * SIZE;
      assert Aligned(top) by { AlignedPlus(first, n - 1); }
      SpanStep(first, n, p);
      assert top + SIZE == first + n * SIZE;
      if top <= p < top + SIZE && Aligned(p) {
        NextAligned(top, p);
      }
    }
  }

  lemma SpanStep(first: nat, n: nat, p: nat)
    requires 0 < n
    ensures p in Span(first, n) <==> p in Span(first, n - 1) || p == first + (n - 1) * SIZE
  {
  }

  /** A run of pages holds exactly the aligned addresses it spans. */
  lemma SpanPages(first: nat, n: nat, p: nat)
    requires first % SIZE == 0
    ensures p in Span(first, n) <==> first <= p < first + n * SIZE && p % SIZE == 0
  {
    SpanAligned(first, n, p);
  }

  function PageCount(regions: seq<Region>): int {
    if regions == [] then 0
    else
      var r := regions[|regions| - 1];
      PageCount(regions[..|regions| - 1]) + if r.usable then (r.end - r.start) / SIZE else 0
  }

  lemma RegionPages(r: Region) returns (mine: set<nat>)
    requires r.usable ==> r.start % SIZE == 0 && r.end % SIZE == 0 && r.start <= r.end
    ensures mine == (set p: nat | p < r.end && PageOf(r, p))
    ensures |mine| == if r.usable then (r.end - r.start) / SIZE else 0
  {
    mine := set p: nat | p < r.end && PageOf(r, p);
    if r.usable {
      var k := (r.end - r.start) / SIZE;
      forall p | 0 <= p ensures p in mine <==> p in Span(r.start, k) {
        SpanPages(r.start, k, p);
      }
      assert mine == Span(r.start, k);
    } else {
      assert mine == {};
    }
  }

  lemma LastRegionApart(regions: seq<Region>, n: nat, p: nat)
    requires |regions| == n + 1 && Ascending(regions) && PageOf(regions[n], p)
    ensures p !in Pages(regions[..n])
  {
    forall i | 0 <= i < n ensures !PageOf(regions[..n][i], p) {
      assert regions[..n][i] == regions[i];
    }
  }

  /** On an aligned, ordered memory map the total computed at start-up counts the pages. */
  lemma {:induction false} TotalCountsPages(regions: seq<Region>)
    requires Ascending(regions) && PageAligned(regions)
    ensures PageCount(regions) == |Pages(regions)|
  {
    if regions != [] {
      var n := |regions| - 1;
      TotalCountsPages(regions[..n]);
      var mine := RegionPages(regions[n]);
      forall p | p in mine ensures p !in Pages(regions[..n]) {
        LastRegionApart(regions, n, p);
      }
      PagesStep(regions, n, mine);
      DisjointSize(Pages(regions[..n]), mine);
    }
  }

  lemma PagesStep(regions: seq<Region>, n: nat, mine: set<nat>)
    requires |regions| == n + 1 && mine == (set p: nat | p < regions[n].end && PageOf(regions[n], p))
    ensures Pages(regions) == Pages(regions[..n]) + mine
  {
  }

  lemma DisjointSize(a: set<nat>, b: set<nat>)
    requires a !! b
    ensures |a + b| == |a| + |b|
  {
  }

  // ---- the allocator ----

  /** The free list threaded through memory: each free frame's first word is the next one. */
  ghost predicate Linked(words: map<nat, nat>, head: nat, free: seq<nat>)
    decreases |free|
  {
    if free == [] then head == 0
    else head == free[0] && head != 0 && head in words && Linked(words, words[head], free[1..])
  }

  lemma {:induction false} LinkedFrame(words: map<nat, nat>, head: nat, free: seq<nat>, at: nat, v: nat)
    requires Linked(words, head, free) && at !in free
    ensures Linked(words[at := v], head, free)
    decreases |free|
  {
    if free != [] {
      LinkedFrame(words, words[head], free[1..], at, v);
    }
  }

  /** The pages at or past the cursor. */
  ghost function Ahead(regions: seq<Region>, bump: nat): set<nat> {
    set p | p in Pages(regions) && bump <= p
  }

  ghost function Behind(regions: seq<Region>, bump: nat): set<nat> {
    set p | p in Pages(regions) && p < bump
  }

  /** Every page behind the cursor is in one place: owned, on the list once, or skipped. */
  ghost predicate Split(behind: set<nat>, taken: set<nat>, free: seq<nat>, lost: set<nat>) {
    && (forall i, j :: 0 <= i < j < |free| ==> free[i] != free[j])
    && (forall f :: f in free ==> f !in taken && f !in lost)
    && taken !! lost
    && (forall f :: f in behind <==> f in taken || f in lost || f in free)
  }

  lemma SplitPush(behind: set<nat>, taken: set<nat>, free: seq<nat>, lost: set<nat>, f: nat)
    requires Split(behind, taken, free, lost) && f in taken
    ensures Split(behind, taken - {f}, [f] + free, lost)
  {
  }

  lemma SplitPop(behind: set<nat>, taken: set<nat>, free: seq<nat>, lost: set<nat>)
    requires Split(behind, taken, free, lost) && free != []
    ensures Split(behind, taken + {free[0]}, free[1..], lost) && free[0] !in taken
  {
    assert free == [free[0]] + free[1..];
  }

  lemma SplitGrow(behind: set<nat>, taken: set<nat>, free: seq<nat>, lost: set<nat>, wider: set<nat>, new_: set<nat>)
    requires Split(behind, taken, free, lost) && behind <= wider && new_ <= wider - behind
    ensures Split(wider, taken + new_, free, lost + (wider - behind - new_))
    ensures |taken + new_| == |taken| + |new_|
  {
    DisjointSize(taken, new_);
  }

  /** Moving the cursor over `new_` and the pages it skips. */
  lemma SplitBump(regions: seq<Region>, bump: nat, to: nat, taken: set<nat>, free: seq<nat>, lost: set<nat>, new_: set<nat>)
    requires Split(Behind(regions, bump), taken, free, lost) && bump <= to
    requires forall p :: p in new_ ==> p in Pages(regions) && bump <= p < to
    ensures Split(Behind(regions, to), taken + new_, free, lost + Skipped(regions, bump, to, new_))
    ensures |taken + new_| == |taken| + |new_| && taken !! new_
  {
    SplitGrow(Behind(regions, bump), taken, free, lost, Behind(regions, to), new_);
    assert Skipped(regions, bump, to, new_) == Behind(regions, to) - Behind(regions, bump) - new_;
  }

  /** The pages the cursor passes without handing them out. */
  ghost function Skipped(regions: seq<Region>, bump: nat, to: nat, new_: set<nat>): set<nat> {
    set p | p in Pages(regions) && bump <= p < to && p !in new_
  }

  /** No page of the first `i` regions lies between the cursor and `limit`. */
  ghost predicate NoneBefore(regions: seq<Region>, i: nat, bump: nat, limit: nat)
    requires i <= |regions|
  {
    forall j, p: nat :: 0 <= j < i && PageOf(regions[j], p) && bump <= p ==> limit < p + SIZE
  }

  /** No page of the first `i` regions lies past the cursor. */
  ghost predicate NoneLeft(regions: seq<Region>, i: nat, bump: nat)
    requires i <= |regions|
  {
    forall j, p: nat :: 0 <= j < i && PageOf(regions[j], p) ==> p < bump
  }

  lemma NoPageLeft(r: Region, bump: nat)
    requires bump % SIZE == 0 && (r.usable ==> r.end < Candidate(r, bump) + SIZE)
    ensures forall p: nat :: PageOf(r, p) ==> p < bump
  {
    forall p: nat | PageOf(r, p) ensures p < bump {
      if bump <= p { CandidateLeast(r, bump, p); }
    }
  }

  lemma NoneLeftStep(regions: seq<Region>, i: nat, bump: nat)
    requires i < |regions| && bump % SIZE == 0 && NoneLeft(regions, i, bump)
    requires regions[i].usable ==> regions[i].end < Candidate(regions[i], bump) + SIZE
    ensures NoneLeft(regions, i + 1, bump)
  {
    NoPageLeft(regions[i], bump);
  }

  lemma NoneLeftZero(regions: seq<Region>, bump: nat)
    ensures NoneLeft(regions, 0, bump)
  {
  }

  lemma NoneLeftBefore(regions: seq<Region>, i: nat, bump: nat, limit: nat)
    requires i <= |regions| && NoneLeft(regions, i, bump)
    ensures NoneBefore(regions, i, bump, limit)
  {
  }

  lemma NoneLeftAhead(regions: seq<Region>, bump: nat)
    requires NoneLeft(regions, |regions|, bump)
    ensures Ahead(regions, bump) == {}
  {
  }

  /** In an ordered map the scan takes the first page left, so it skips none. */
  lemma FirstFitSkipsNone(regions: seq<Region>, i: nat, bump: nat, cand: nat)
    requires Ascending(regions) && i < |regions| && bump % SIZE == 0
    requires PageOf(regions[i], cand) && cand == Candidate(regions[i], bump)
    requires NoneBefore(regions, i, bump, cand + SIZE)
    ensures Skipped(regions, bump, cand + SIZE, {cand}) == {}
  {
    forall p | p in Pages(regions) && bump <= p < cand + SIZE ensures p == cand {
      var j :| 0 <= j < |regions| && PageOf(regions[j], p);
      FirstFit(regions, i, j, bump, cand, p);
    }
  }

  lemma FirstFit(regions: seq<Region>, i: nat, j: nat, bump: nat, cand: nat, p: nat)
    requires Ascending(regions) && i < |regions| && j < |regions| && bump % SIZE == 0
    requires PageOf(regions[i], cand) && cand == Candidate(regions[i], bump)
    requires NoneBefore(regions, i, bump, cand + SIZE)
    requires PageOf(regions[j], p) && bump <= p < cand + SIZE
    ensures p == cand
  {
    AlignedGap(p, cand);
    if j == i {
      CandidateLeast(regions[i], bump, p);
    }
  }

  lemma AlignedGap(p: nat, q: nat)
    requires p % SIZE == 0 && q % SIZE == 0 && p < q + SIZE
    ensures p <= q
  {
  }

  /** Nothing is unaccounted for: pages are owned, free, skipped or still ahead. */
  lemma Conservation(regions: seq<Region>, bump: nat, taken: set<nat>, free: seq<nat>, lost: set<nat>)
    requires Split(Behind(regions, bump), taken, free, lost)
    ensures |Pages(regions)| == |taken| + |free| + |lost| + |Ahead(regions, bump)|
  {
    var fs := ListSet(free);
    DisjointSize(taken, lost);
    DisjointSize(taken + lost, fs);
    assert Behind(regions, bump) == taken + lost + fs;
    DisjointSize(Behind(regions, bump), Ahead(regions, bump));
    assert Pages(regions) == Behind(regions, bump) + Ahead(regions, bump);
  }

  lemma {:induction false} ListSet(free: seq<nat>) returns (fs: set<nat>)
    requires forall i, j :: 0 <= i < j < |free| ==> free[i] != free[j]
    ensures |fs| == |free| && forall f :: f in fs <==> f in free
  {
    fs := {};
    if free != [] {
      var n := |free| - 1;
      fs := ListSet(free[..n]);
      assert forall f :: f in free <==> f in free[..n] || f == free[n];
      assert free[n] !in free[..n];
      fs := fs + {free[n]};
    }
  }

  // ---- where a scan finds room ----

  predicate RunOf(r: Region, p: nat, n: nat) {
    r.usable && r.start <= p && p + n * SIZE <= r.end && p % SIZE == 0
  }

  /** The run of `n` pages that the first region with room gives, from region `i` on. */
  function ScanFrom(regions: seq<Region>, i: nat, bump: nat, n: nat): (r: Option<nat>)
    requires i <= |regions|
    decreases |regions| - i
  {
    if i == |regions| then None
    else if regions[i].usable && Candidate(regions[i], bump) + n * SIZE <= regions[i].end then Some(Candidate(regions[i], bump))
    else ScanFrom(regions, i + 1, bump, n)
  }

  function Scan(regions: seq<Region>, bump: nat, n: nat): Option<nat> {
    ScanFrom(regions, 0, bump, n)
  }

  /** The first page below the first mebibyte that a region gives, from region `i` on. */
  function LowFrom(regions: seq<Region>, i: nat, bump: nat): (r: Option<nat>)
    requires i <= |regions|
    decreases |regions| - i
  {
    if i == |regions| then None
    else
      var p := Candidate(regions[i], bump);
      if regions[i].usable && p + SIZE <= regions[i].end && p + SIZE <= LOW_LIMIT then Some(p) else LowFrom(regions, i + 1, bump)
  }

  lemma LowStep(regions: seq<Region>, i: nat, bump: nat)
    requires i < |regions|
    ensures var p := Candidate(regions[i], bump);
      LowFrom(regions, i, bump) == if regions[i].usable && p + SIZE <= regions[i].end && p + SIZE <= LOW_LIMIT then Some(p) else LowFrom(regions, i + 1, bump)
  {
  }

  lemma LowEnd(regions: seq<Region>, bump: nat)
    ensures LowFrom(regions, |regions|, bump) == None
  {
  }

  lemma CandidatePage(r: Region, bump: nat)
    requires bump % SIZE == 0 && r.usable && Candidate(r, bump) + SIZE <= r.end
    ensures PageOf(r, Candidate(r, bump)) && bump <= Candidate(r, bump) && (Candidate(r, bump) + SIZE) % SIZE == 0
  {
  }

  lemma ScanStep(regions: seq<Region>, i: nat, bump: nat, n: nat)
    requires i < |regions|
    ensures ScanFrom(regions, i, bump, n) ==
      if regions[i].usable && Candidate(regions[i], bump) + n * SIZE <= regions[i].end then Some(Candidate(regions[i], bump))
      else ScanFrom(regions, i + 1, bump, n)
  {
  }

  lemma ScanEnd(regions: seq<Region>, bump: nat, n: nat)
    ensures ScanFrom(regions, |regions|, bump, n) == None
  {
  }

  lemma {:induction false} ScanFinds(regions: seq<Region>, i: nat, bump: nat, n: nat) returns (j: nat)
    requires i <= |regions| && bump % SIZE == 0 && ScanFrom(regions, i, bump, n).Some?
    ensures i <= j < |regions| && ScanFrom(regions, i, bump, n) == Some(Candidate(regions[j], bump))
    ensures RunOf(regions[j], Candidate(regions[j], bump), n)
    ensures forall k :: i <= k < j && regions[k].usable ==> regions[k].end < Candidate(regions[k], bump) + n * SIZE
    decreases |regions| - i
  {
    hide RunOf;
    if regions[i].usable && Candidate(regions[i], bump) + n * SIZE <= regions[i].end {
      j := i;
      RunHere(regions[i], bump, n);
    } else {
      j := ScanFinds(regions, i + 1, bump, n);
    }
  }

  lemma RunHere(r: Region, bump: nat, n: nat)
    requires bump % SIZE == 0 && r.usable && Candidate(r, bump) + n * SIZE <= r.end
    ensures RunOf(r, Candidate(r, bump), n)
  {
  }

  lemma {:induction false} ScanMisses(regions: seq<Region>, i: nat, bump: nat)
    requires i <= |regions| && bump % SIZE == 0 && ScanFrom(regions, i, bump, 1).None?
    ensures forall j, p: nat :: i <= j < |regions| && PageOf(regions[j], p) ==> p < bump
    decreases |regions| - i
  {
    if i < |regions| {
      ScanMisses(regions, i + 1, bump);
      NoPageLeft(regions[i], bump);
    }
  }

  /** On an ordered map, a scan for one page finds the lowest page ahead. */
  lemma ScanLowest(regions: seq<Region>, bump: nat, p: nat)
    requires Ascending(regions) && bump % SIZE == 0 && Scan(regions, bump, 1) == Some(p)
    ensures p in Ahead(regions, bump) && forall q :: q in Ahead(regions, bump) ==> p <= q
  {
    hide Pages, Candidate, Ascending;
    var j := ScanFinds(regions, 0, bump, 1);
    OnePage(regions[j], bump, p);
    assert bump <= p by { CandidatePast(regions[j], bump); }
    InPages(regions, j, p);
    NoneLeftUpTo(regions, j, bump);
    NoneLeftBefore(regions, j, bump, p + SIZE);
    FirstFitSkipsNone(regions, j, bump, p);
    forall q | q in Ahead(regions, bump) ensures p <= q {
      assert q !in Skipped(regions, bump, p + SIZE, {p});
    }
  }

  lemma CandidatePast(r: Region, bump: nat)
    ensures bump <= Candidate(r, bump)
  {
  }

  lemma OnePage(r: Region, bump: nat, p: nat)
    requires RunOf(r, p, 1)
    ensures PageOf(r, p)
  {
  }

  lemma InPages(regions: seq<Region>, j: nat, p: nat)
    requires j < |regions| && PageOf(regions[j], p)
    ensures p in Pages(regions)
  {
  }

  lemma {:induction false} NoneLeftUpTo(regions: seq<Region>, j: nat, bump: nat)
    requires j <= |regions| && bump % SIZE == 0
    requires forall k :: 0 <= k < j && regions[k].usable ==> regions[k].end < Candidate(regions[k], bump) + SIZE
    ensures NoneLeft(regions, j, bump)
  {
    hide NoneLeft, Candidate;
    if j == 0 {
      NoneLeftZero(regions, bump);
    } else {
      NoneLeftUpTo(regions, j - 1, bump);
      NoneLeftStep(regions, j - 1, bump);
    }
  }

  /** A run skips nothing exactly when no page ahead lies below it. */
  lemma SkipsBelow(regions: seq<Region>, bump: nat, at: nat, n: nat)
    requires bump <= at && at % SIZE == 0
    ensures Skipped(regions, bump, at + n * SIZE, Span(at, n)) == {} <==> forall p :: p in Ahead(regions, bump) ==> at <= p
  {
    hide Pages, Span;
    var sk := Skipped(regions, bump, at + n * SIZE, Span(at, n));
    forall p: nat | p in Pages(regions) ensures p in sk <==> bump <= p < at {
      PagesAligned(regions, p);
      SpanPages(at, n, p);
    }
    if sk == {} {
      forall p | p in Ahead(regions, bump) ensures at <= p {
        assert p !in sk;
      }
    } else {
      var p :| p in sk;
      assert p in Ahead(regions, bump) && p < at;
    }
  }

  lemma PagesAligned(regions: seq<Region>, p: nat)
    requires p in Pages(regions)
    ensures p % SIZE == 0
  {
  }

  /** On an ordered map that is when the run starts at the page a scan for one would give. */
  lemma SkipsUnlessFirst(regions: seq<Region>, bump: nat, at: nat, n: nat)
    requires Ascending(regions) && bump % SIZE == 0 && 0 < n && Scan(regions, bump, n) == Some(at)
    ensures bump <= at && at % SIZE == 0
    ensures Skipped(regions, bump, at + n * SIZE, Span(at, n)) == {} <==> Scan(regions, bump, 1) == Some(at)
  {
    hide Pages, Span, Skipped, Candidate, Ascending;
    var j := ScanFinds(regions, 0, bump, n);
    CandidatePast(regions[j], bump);
    assert PageOf(regions[j], at) && at in Ahead(regions, bump) by { InPages(regions, j, at); }
    SkipsBelow(regions, bump, at, n);
    if Scan(regions, bump, 1).None? {
      ScanMisses(regions, 0, bump);
    } else {
      ScanLowest(regions, bump, Scan(regions, bump, 1).value);
    }
  }

  class FrameAllocator {
    const regions: seq<Region>
    var bumpNext: nat
    var freeHead: nat
    const total: int
    var used: nat
    var freed: nat
    var oom: nat
    /** Physical memory, by the address of each word. */
    var words: map<nat, nat>
    /** Frames owned by callers, frames on the free list in order, and pages the cursor skipped. */
    ghost var taken: set<nat>
    ghost var free: seq<nat>
    ghost var lost: set<nat>

    /** What every call keeps: the links in memory are the list, and `used` counts the owned frames. */
    ghost predicate Valid()
      reads this
    {
      && NoZeroPage(regions) && bumpNext % SIZE == 0
      && Linked(words, freeHead, free)
      && Split(Behind(regions, bumpNext), taken, free, lost)
      && used == |taken|
    }

    constructor (regions: seq<Region>, memory: map<nat, nat>)
      requires NoZeroPage(regions)
      ensures Valid() && this.regions == regions && words == memory
      ensures taken == {} && free == [] && lost == {} && bumpNext == 0
      ensures total == PageCount(regions)
    {
      this.regions, bumpNext, freeHead := regions, 0, 0;
      total, used, freed, oom := PageCount(regions), 0, 0, 0;
      words := memory;
      taken, free, lost := {}, [], {};
    }

    /** Return a frame: it becomes the head of the list, and nothing else moves. */
    method DeallocateFrame(frame: nat)
      requires Valid() && frame in taken
      modifies this
      ensures Valid()
      ensures free == [frame] + old(free) && taken == old(taken) - {frame}
      ensures words == old(words)[frame := old(freeHead)]
      ensures lost == old(lost) && bumpNext == old(bumpNext) && freed == old(freed) + 1 && oom == old(oom)
    {
      hide Split, Pages;
      assert frame in Behind(regions, bumpNext) && frame !in free && frame != 0 by { TakenPage(frame); }
      SplitPush(Behind(regions, bumpNext), taken, free, lost, frame);
      LinkedFrame(words, freeHead, free, frame, freeHead);
      words := words[frame := freeHead];
      freeHead := frame;
      used := used - 1;
      freed := freed + 1;
      assert ([frame] + free)[1..] == free;
      free := [frame] + free;
      taken := taken - {frame};
    }

    lemma TakenPage(frame: nat)
      requires Valid() && frame in taken
      ensures frame in Behind(regions, bumpNext) && frame in Pages(regions) && frame !in free && frame != 0
    {
    }

    /**
     Hand out one frame: the last one freed if any, else the next page of the scan. With an
     empty list it fails exactly when no page is left ahead of the cursor.
     */
    method AllocateFrame() returns (r: Option<nat>)
      requires Valid()
      modifies this
      ensures Valid() && words == old(words) && freed == old(freed)
      ensures r.Some? ==> r.value in Pages(regions) && r.value !in old(taken) && taken == old(taken) + {r.value} && oom == old(oom)
      ensures r.None? ==> taken == old(taken) && lost == old(lost) && oom == old(oom) + 1 && Pages(regions) == taken + lost
      ensures old(free) != [] ==> r == Some(old(free)[0]) && free == old(free)[1..] && lost == old(lost)
      ensures old(free) == [] ==> free == [] && r == Scan(regions, old(bumpNext), 1) && (r.None? <==> Ahead(regions, old(bumpNext)) == {})
      ensures Ascending(regions) ==> lost == old(lost)
      ensures bumpNext == if old(free) == [] && r.Some? then r.value + SIZE else old(bumpNext)
    {
      hide Split, Pages, Linked, Ahead, Behind;
      ListHead(words, freeHead, free);
      if freeHead != 0 {
        var addr := PopFree();
        return Some(addr);
      }
      r := BumpOne();
      if r.None? { NothingLeft(); }
    }

    lemma NothingLeft()
      requires Valid() && free == [] && Ahead(regions, bumpNext) == {}
      ensures Pages(regions) == taken + lost
    {
      hide Pages, Linked;
      assert forall p :: p in Pages(regions) ==> p in Behind(regions, bumpNext) || p in Ahead(regions, bumpNext);
    }

    /** Unlink the head of the list: its first word is the next head. */
    method PopFree() returns (addr: nat)
      requires Valid() && free != []
      modifies this`freeHead, this`used, this`taken, this`free
      ensures Valid() && addr == old(free)[0] && free == old(free)[1..]
      ensures addr in Pages(regions) && addr !in old(taken) && taken == old(taken) + {addr}
    {
      hide Split, Pages, Linked, Behind;
      ListHead(words, freeHead, free);
      addr := freeHead;
      SplitPop(Behind(regions, bumpNext), taken, free, lost);
      freeHead := words[addr];
      used := used + 1;
      taken, free := taken + {addr}, free[1..];
      TakenPage(addr);
    }

    /** The first usable region with a page past the cursor gives it. */
    method BumpOne() returns (r: Option<nat>)
      requires Valid()
      modifies this
      ensures Valid() && words == old(words) && freed == old(freed) && free == old(free)
      ensures r.Some? ==> r.value in Pages(regions) && r.value !in old(taken) && taken == old(taken) + {r.value} && oom == old(oom)
      ensures r.None? ==> taken == old(taken) && lost == old(lost) && oom == old(oom) + 1
      ensures r == Scan(regions, old(bumpNext), 1)
      ensures r.None? <==> Ahead(regions, old(bumpNext)) == {}
      ensures bumpNext == if r.Some? then r.value + SIZE else old(bumpNext)
      ensures Ascending(regions) ==> lost == old(lost)
    {
      hide Split, Pages, Linked, Ahead, Behind, Skipped, NoneLeft, NoneBefore, Ascending;
      var i := 0;
      assert NoneLeft(regions, 0, bumpNext) by { NoneLeftZero(regions, bumpNext); }
      while i < |regions|
        invariant i <= |regions| && unchanged(this) && NoneLeft(regions, i, bumpNext)
        invariant ScanFrom(regions, i, bumpNext, 1) == Scan(regions, bumpNext, 1)
      {
        if regions[i].usable {
          var cand := Candidate(regions[i], bumpNext);
          if cand + SIZE <= regions[i].end {
            TakeOne(i, cand);
            return Some(cand);
          }
        }
        NoneLeftStep(regions, i, bumpNext);
        i := i + 1;
      }
      NoneLeftAhead(regions, bumpNext);
      oom := oom + 1;
      return None;
    }

    /** The cursor steps over the page it hands out. */
    method TakeOne(ghost i: nat, cand: nat)
      requires Valid() && i < |regions| && PageOf(regions[i], cand) && cand == Candidate(regions[i], bumpNext) && NoneLeft(regions, i, bumpNext)
      modifies this
      ensures Valid() && words == old(words) && freed == old(freed) && free == old(free) && bumpNext == cand + SIZE && oom == old(oom)
      ensures cand in Pages(regions) && cand !in old(taken) && taken == old(taken) + {cand} && Ahead(regions, old(bumpNext)) != {}
      ensures Ascending(regions) ==> lost == old(lost)
    {
      hide Split, Pages, Linked, Ahead, Behind, Skipped, NoneLeft, NoneBefore, Ascending, Candidate;
      CandidatePast(regions[i], bumpNext);
      PageAhead(regions, i, cand, bumpNext);
      if Ascending(regions) {
        NoneLeftBefore(regions, i, bumpNext, cand + SIZE);
        FirstFitSkipsNone(regions, i, bumpNext, cand);
      }
      Claim(cand + SIZE, 1, {cand});
    }

    /** Move the cursor to `to`, handing out `new_` and giving up what else it passes. */
    method Claim(to: nat, n: nat, ghost new_: set<nat>)
      requires Valid() && bumpNext <= to && to % SIZE == 0 && |new_| == n
      requires forall p :: p in new_ ==> p in Pages(regions) && bumpNext <= p < to
      modifies this
      ensures Valid() && bumpNext == to
      ensures taken == old(taken) + new_ && old(taken) !! new_
      ensures lost == old(lost) + Skipped(regions, old(bumpNext), to, new_)
      ensures free == old(free) && words == old(words) && freed == old(freed) && oom == old(oom)
    {
      hide Split, Pages, Linked, Behind, Skipped;
      SplitBump(regions, bumpNext, to, taken, free, lost, new_);
      lost := lost + Skipped(regions, bumpNext, to, new_);
      taken := taken + new_;
      bumpNext := to;
      used := used + n;
    }

    /**
     One page below the first mebibyte, for starting another processor. It fails exactly when
     no such page lies past the cursor, and as the first call on an ordered map skips nothing.
     */
    method ReserveLowFrame() returns (r: Option<nat>)
      requires Valid()
      modifies this
      ensures Valid() && words == old(words) && free == old(free) && freed == old(freed) && oom == old(oom)
      ensures r.Some? ==> r.value in Pages(regions) && 0 < r.value && r.value + SIZE <= LOW_LIMIT
      ensures r.Some? ==> r.value !in old(taken) && taken == old(taken) + {r.value}
      ensures r.None? ==> taken == old(taken) && lost == old(lost) && bumpNext == old(bumpNext)
      ensures r.None? <==> NoneBefore(regions, |regions|, old(bumpNext), LOW_LIMIT)
      ensures r == LowFrom(regions, 0, old(bumpNext)) && (r.Some? ==> bumpNext == r.value + SIZE)
      ensures Ascending(regions) ==> lost == old(lost)
    {
      hide Split, Pages, Linked, Ahead, Behind, Skipped, NoneBefore, Ascending, NoZeroPage, LowFrom, Candidate, AlignUp, PageOf;
      var i := 0;
      assert NoneBefore(regions, 0, bumpNext, LOW_LIMIT) by { NoneBeforeZero(regions, bumpNext); }
      while i < |regions|
        invariant i <= |regions| && unchanged(this) && NoneBefore(regions, i, bumpNext, LOW_LIMIT)
        invariant LowFrom(regions, i, bumpNext) == LowFrom(regions, 0, bumpNext)
      {
        LowStep(regions, i, bumpNext);
        if regions[i].usable {
          var cand := Max(AlignUp(Max(regions[i].start, 0x1000)), AlignUp(bumpNext));
          LowCandidate(regions, i, bumpNext);
          if cand + SIZE <= regions[i].end && cand + SIZE <= LOW_LIMIT {
            TakeLow(i, cand);
            return Some(cand);
          }
        }
        NoneBeforeStep(regions, i, bumpNext);
        i := i + 1;
      }
      LowEnd(regions, bumpNext);
      return None;
    }

    lemma Grounded()
      requires Valid()
      ensures NoZeroPage(regions) && bumpNext % SIZE == 0
    {
    }

    method TakeLow(ghost i: nat, cand: nat)
      requires Valid() && i < |regions| && regions[i].usable && cand == Candidate(regions[i], bumpNext)
      requires cand + SIZE <= regions[i].end && cand + SIZE <= LOW_LIMIT && NoneBefore(regions, i, bumpNext, LOW_LIMIT)
      modifies this
      ensures Valid() && words == old(words) && free == old(free) && freed == old(freed) && oom == old(oom) && bumpNext == cand + SIZE
      ensures cand in Pages(regions) && 0 < cand && cand !in old(taken) && taken == old(taken) + {cand}
      ensures !NoneBefore(regions, |regions|, old(bumpNext), LOW_LIMIT)
      ensures Ascending(regions) ==> lost == old(lost)
    {
      hide Valid, Pages, Ahead, Behind, Skipped, NoneBefore, Ascending, NoZeroPage, Candidate, PageOf;
      Grounded();
      CandidatePage(regions[i], bumpNext);
      PageAhead(regions, i, cand, bumpNext);
      if Ascending(regions) {
        NoneBeforeWeaker(regions, i, bumpNext, cand + SIZE);
        FirstFitSkipsNone(regions, i, bumpNext, cand);
      }
      LowPage(regions, i, bumpNext, cand);
      Claim(cand + SIZE, 1, {cand});
    }

    /**
     A run of pages in one piece. The free list is never touched; the run lies in one region,
     and the call fails exactly when the size is zero or too big or no region has room for it.
     The pages ahead that lie below the run are given up for good. On an ordered map there are
     none exactly when the run starts at the page a scan for a single one would give.
     */
    method AllocateContiguous(count: nat) returns (r: Option<nat>)
      requires Valid()
      modifies this
      ensures Valid() && words == old(words) && free == old(free) && freed == old(freed)
      ensures r.Some? ==> taken == old(taken) + Span(r.value, count) && old(taken) !! Span(r.value, count)
      ensures r.Some? ==> oom == old(oom) && exists i :: 0 <= i < |regions| && RunOf(regions[i], r.value, count)
      ensures r.None? ==> taken == old(taken) && lost == old(lost) && bumpNext == old(bumpNext)
      ensures r.None? <==> count == 0 || U64 <= count * SIZE || NoRun(regions, |regions|, old(bumpNext), count)
      ensures r.None? ==> oom == old(oom) + if count == 0 || U64 <= count * SIZE then 0 else 1
      ensures r == if count == 0 || U64 <= count * SIZE then None else Scan(regions, old(bumpNext), count)
      ensures r.Some? ==> bumpNext == r.value + count * SIZE && old(bumpNext) <= r.value
      ensures r.Some? ==> lost == old(lost) + Skipped(regions, old(bumpNext), bumpNext, Span(r.value, count))
      ensures r.Some? ==> (lost == old(lost) <==> forall p :: p in Ahead(regions, old(bumpNext)) ==> r.value <= p)
      ensures r.Some? && Ascending(regions) ==> (lost == old(lost) <==> Scan(regions, old(bumpNext), 1) == r)
    {
      hide Split, Pages, Linked, Behind, Skipped, NoRun, Ahead, Ascending, ScanFrom, Span, Candidate, RunOf;
      if count == 0 { return None; }
      var bytes := count * SIZE;
      if U64 <= bytes { return None; }
      var i := 0;
      assert NoRun(regions, 0, bumpNext, count) by { NoRunZero(regions, bumpNext, count); }
      while i < |regions|
        invariant i <= |regions| && unchanged(this) && NoRun(regions, i, bumpNext, count)
        invariant ScanFrom(regions, i, bumpNext, count) == Scan(regions, bumpNext, count)
      {
        ScanStep(regions, i, bumpNext, count);
        if regions[i].usable {
          var cand := Candidate(regions[i], bumpNext);
          if cand <= regions[i].end && bytes <= regions[i].end - cand {
            TakeRun(i, cand, count);
            return Some(cand);
          }
        }
        NoRunStep(regions, i, bumpNext, count);
        i := i + 1;
      }
      ScanEnd(regions, bumpNext, count);
      oom := oom + 1;
      return None;
    }

    /** The cursor steps over the run it hands out and the pages below it. */
    method TakeRun(ghost i: nat, cand: nat, count: nat)
      requires Valid() && i < |regions| && regions[i].usable && 0 < count && cand == Candidate(regions[i], bumpNext)
      requires cand + count * SIZE <= regions[i].end && Scan(regions, bumpNext, count) == Some(cand)
      modifies this
      ensures Valid() && words == old(words) && free == old(free) && freed == old(freed) && oom == old(oom)
      ensures taken == old(taken) + Span(cand, count) && old(taken) !! Span(cand, count)
      ensures RunOf(regions[i], cand, count) && !NoRun(regions, |regions|, old(bumpNext), count)
      ensures bumpNext == cand + count * SIZE && old(bumpNext) <= cand
      ensures lost == old(lost) + Skipped(regions, old(bumpNext), bumpNext, Span(cand, count))
      ensures lost == old(lost) <==> forall p :: p in Ahead(regions, old(bumpNext)) ==> cand <= p
      ensures Ascending(regions) ==> (lost == old(lost) <==> Scan(regions, old(bumpNext), 1) == Some(cand))
    {
      hide Split, Pages, Linked, Behind, Skipped, NoRun, Ahead, Ascending, ScanFrom, Span, Candidate;
      RunPages(regions, i, cand, count, bumpNext);
      SkippedRun(cand, count);
      Claim(cand + count * SIZE, count, Span(cand, count));
    }

    lemma SkippedRun(at: nat, n: nat)
      requires Valid() && 0 < n && Scan(regions, bumpNext, n) == Some(at)
      ensures bumpNext <= at
      ensures var more := Skipped(regions, bumpNext, at + n * SIZE, Span(at, n));
        && lost !! more
        && (more == {} <==> forall p :: p in Ahead(regions, bumpNext) ==> at <= p)
        && (Ascending(regions) ==> (more == {} <==> Scan(regions, bumpNext, 1) == Some(at)))
    {
      hide Pages, Span, Linked, Candidate;
      var j := ScanFinds(regions, 0, bumpNext, n);
      CandidatePast(regions[j], bumpNext);
      SkipsBelow(regions, bumpNext, at, n);
      if Ascending(regions) { SkipsUnlessFirst(regions, bumpNext, at, n); }
      forall p | p in lost ensures p in Behind(regions, bumpNext) { }
    }

    /** A caller may write any word of a frame it owns; the allocator is not disturbed. */
    method OwnerWrites(frame: nat, at: nat, v: nat)
      requires Valid() && frame in taken && frame <= at < frame + SIZE
      modifies this`words
      ensures Valid() && words == old(words)[at := v]
    {
      OwnedWord(frame, at);
      LinkedFrame(words, freeHead, free, at, v);
      words := words[at := v];
    }

    lemma OwnedWord(frame: nat, at: nat)
      requires Valid() && frame in taken && frame <= at < frame + SIZE
      ensures at !in free
    {
      TakenPage(frame);
      if at in free {
        assert at in Behind(regions, bumpNext) && at in Pages(regions);
        AlignedGap(at, frame);
      }
    }

    /** The reported figures: `total - used` is the free list, the pages still ahead and the skipped ones. */
    lemma Snapshot()
      requires Valid() && total == PageCount(regions) && Ascending(regions) && PageAligned(regions)
      ensures total - used == |free| + |Ahead(regions, bumpNext)| + |lost|
      ensures total - used == |free| + |Ahead(regions, bumpNext)| <==> lost == {}
    {
      TotalCountsPages(regions);
      Conservation(regions, bumpNext, taken, free, lost);
    }

    /**
     Over every run of requests the snapshot keeps its promise, that `total - used` is the free
     list plus the pages ahead, exactly when each run of pages that was granted started at the
     page a scan for a single one would have given.
     */
    method Serve(requests: seq<Request>) returns (held: seq<nat>)
      requires Valid() && lost == {} && total == PageCount(regions) && Ascending(regions) && PageAligned(regions)
      modifies this
      ensures Valid() && State(bumpNext, free, held) == Follow(regions, State(old(bumpNext), old(free), []), requests)
      ensures total - used == |free| + |Ahead(regions, bumpNext)| <==> NothingPassed(regions, State(old(bumpNext), old(free), []), requests)
    {
      hide Valid, Split, Pages, Linked, Ahead, Ascending, PageAligned, ScanFrom, Span, Skipped, NoneBefore, NoRun, Follow, NothingPassed;
      ghost var s := State(bumpNext, free, []);
      held := [];
      var i := 0;
      FollowNone(regions, s);
      assert requests[..0] == [];
      while i < |requests|
        invariant i <= |requests| && Valid() && Held(held, taken)
        invariant State(bumpNext, free, held) == Follow(regions, s, requests[..i])
        invariant lost == {} <==> NothingPassed(regions, s, requests[..i])
      {
        FollowMore(regions, s, requests[..i], requests[i]);
        assert requests[..i + 1] == requests[..i] + [requests[i]];
        held := ServeOne(requests[i], held);
        i := i + 1;
      }
      assert requests[..|requests|] == requests;
      Snapshot();
    }

    method ServeOne(request: Request, before: seq<nat>) returns (held: seq<nat>)
      requires Valid() && Held(before, taken) && Ascending(regions)
      modifies this
      ensures Valid() && Held(held, taken) && State(bumpNext, free, held) == Next(regions, State(old(bumpNext), old(free), before), request)
      ensures lost == {} <==> old(lost) == {} && (request.Many? ==> StartsFirst(regions, old(bumpNext), request.count))
    {
      hide Valid, Split, Pages, Linked, Ahead, Ascending, ScanFrom, Span, Skipped, NoneBefore, NoRun, LowFrom;
      held := before;
      match request {
        case Single =>
          var r := AllocateFrame();
          if r.Some? { held := held + [r.value]; }
        case Low =>
          var r := ReserveLowFrame();
        case Many(count) =>
          var r := AllocateContiguous(count);
        case Release(k) =>
          if k < |held| {
            DeallocateFrame(held[k]);
            held := held[..k] + held[k + 1..];
          }
      }
    }

    /** Freed frames come back in last-in-first-out order, and the allocator ends where it began. */
    method FreeThenTake(frames: seq<nat>) returns (got: seq<nat>)
      requires Valid() && forall f :: f in frames ==> f in taken
      requires forall i, j :: 0 <= i < j < |frames| ==> frames[i] != frames[j]
      modifies this
      ensures Valid() && |got| == |frames| && forall i :: 0 <= i < |got| ==> got[i] == frames[|frames| - 1 - i]
      ensures free == old(free) && taken == old(taken) && lost == old(lost)
    {
      hide Split, Pages, Linked, Behind, Ahead, Valid;
      ghost var all := taken;
      var i := 0;
      while i < |frames|
        invariant i <= |frames| && Valid() && lost == old(lost)
        invariant free == Reverse(frames[..i]) + old(free)
        invariant taken == all - (set f | f in frames[..i])
      {
        assert frames[..i + 1] == frames[..i] + [frames[i]];
        ReverseStep(frames[..i], frames[i], old(free));
        DeallocateFrame(frames[i]);
        i := i + 1;
      }
      assert frames[..|frames|] == frames;
      got := [];
      while i > 0
        invariant 0 <= i <= |frames| && |got| == |frames| - i && Valid() && lost == old(lost)
        invariant forall k :: 0 <= k < |got| ==> got[k] == frames[|frames| - 1 - k]
        invariant free == Reverse(frames[..i]) + old(free)
        invariant taken == all - (set f | f in frames[..i])
      {
        assert frames[..i] == frames[..i - 1] + [frames[i - 1]];
        ReverseStep(frames[..i - 1], frames[i - 1], old(free));
        var r := AllocateFrame();
        got := got + [r.value];
        i := i - 1;
      }
    }
  }

  /** What the kernel asks of the allocator: a frame, a low frame, a run, or the return of a held frame. */
  datatype Request = Single | Low | Many(count: nat) | Release(k: nat)

  /** The cursor, the free list, and the single frames in the caller's hands. */
  datatype State = State(bump: nat, free: seq<nat>, held: seq<nat>)

  /** The run of pages a request is granted. */
  function Granted(regions: seq<Region>, bump: nat, count: nat): Option<nat> {
    if count == 0 || U64 <= count * SIZE then None else Scan(regions, bump, count)
  }

  /** What one request does. */
  function Next(regions: seq<Region>, s: State, request: Request): State {
    match request
    case Single =>
      if s.free != [] then State(s.bump, s.free[1..], s.held + [s.free[0]])
      else
        var r := Scan(regions, s.bump, 1);
        if r.None? then s else State(r.value + SIZE, [], s.held + [r.value])
    case Low =>
      var r := LowFrom(regions, 0, s.bump);
      if r.None? then s else s.(bump := r.value + SIZE)
    case Many(count) =>
      var r := Granted(regions, s.bump, count);
      if r.None? then s else s.(bump := r.value + count * SIZE)
    case Release(k) =>
      if k < |s.held| then State(s.bump, [s.held[k]] + s.free, s.held[..k] + s.held[k + 1..]) else s
  }

  function Follow(regions: seq<Region>, s: State, requests: seq<Request>): State {
    if requests == [] then s
    else
      var n := |requests| - 1;
      Next(regions, Follow(regions, s, requests[..n]), requests[n])
  }

  /** A run of pages is not granted, or starts at the page a scan for one would give. */
  predicate StartsFirst(regions: seq<Region>, bump: nat, count: nat) {
    var r := Granted(regions, bump, count);
    r.None? || Scan(regions, bump, 1) == r
  }

  /** Every run of pages granted along the way started there. */
  ghost predicate NothingPassed(regions: seq<Region>, s: State, requests: seq<Request>) {
    forall i :: 0 <= i < |requests| && requests[i].Many? ==>
      StartsFirst(regions, Follow(regions, s, requests[..i]).bump, requests[i].count)
  }

  lemma FollowNone(regions: seq<Region>, s: State)
    ensures Follow(regions, s, []) == s && NothingPassed(regions, s, [])
  {
  }

  lemma FollowMore(regions: seq<Region>, s: State, requests: seq<Request>, request: Request)
    ensures Follow(regions, s, requests + [request]) == Next(regions, Follow(regions, s, requests), request)
    ensures NothingPassed(regions, s, requests + [request]) <==>
      NothingPassed(regions, s, requests) && (request.Many? ==> StartsFirst(regions, Follow(regions, s, requests).bump, request.count))
  {
    hide StartsFirst, Next;
    var more := requests + [request];
    assert more[..|requests|] == requests;
    assert forall i :: 0 <= i <= |requests| ==> more[..i] == requests[..i];
    assert requests[..|requests|] == requests;
    if NothingPassed(regions, s, more) {
      forall i | 0 <= i < |requests| && requests[i].Many? ensures StartsFirst(regions, Follow(regions, s, requests[..i]).bump, requests[i].count) {
        assert more[i] == requests[i] && more[..i] == requests[..i];
      }
      assert more[|requests|] == request;
    }
  }

  /** Frames in the hands of the caller, each once. */
  ghost predicate Held(held: seq<nat>, taken: set<nat>) {
    (forall i :: 0 <= i < |held| ==> held[i] in taken) && forall i, j :: 0 <= i < j < |held| ==> held[i] != held[j]
  }

  /** One page, a gap, four pages: a run of two passes over the first page and loses it. */
  method LosesOne(memory: map<nat, nat>) returns (a: FrameAllocator)
    ensures fresh(a) && a.Valid() && a.lost == {4096} && a.used == 2 && a.total == 5
    ensures a.total - a.used == |a.free| + |Ahead(a.regions, a.bumpNext)| + 1
  {
    hide Pages, Ahead, Skipped, ScanFrom, Span, PageCount, Split, NoRun, Gapped;
    GappedMap();
    a := new FrameAllocator(Gapped(), memory);
    var r := a.AllocateContiguous(2);
    a.Snapshot();
  }

  function Gapped(): seq<Region> {
    [Region(4096, 8192, true), Region(16384, 32768, true)]
  }

  lemma GappedMap()
    ensures NoZeroPage(Gapped()) && Ascending(Gapped()) && PageAligned(Gapped()) && PageCount(Gapped()) == 5
    ensures Scan(Gapped(), 0, 2) == Some(16384)
    ensures Skipped(Gapped(), 0, 16384 + 2 * SIZE, Span(16384, 2)) == {4096}
  {
    hide Skipped, Span, ScanFrom;
    var regions := Gapped();
    assert regions[..1] == [regions[0]] && regions[..1][..0] == [];
    ScanStep(regions, 0, 0, 2);
    ScanStep(regions, 1, 0, 2);
    GappedSkip();
  }

  lemma GappedSkip()
    ensures Skipped(Gapped(), 0, 16384 + 2 * SIZE, Span(16384, 2)) == {4096}
  {
    hide Pages, Span, Gapped;
    var skipped := Skipped(Gapped(), 0, 16384 + 2 * SIZE, Span(16384, 2));
    forall p: nat ensures p in skipped <==> p == 4096 {
      SpanPages(16384, 2, p);
      PagesOfGapped(p);
    }
  }

  lemma PagesOfGapped(p: nat)
    ensures p in Pages(Gapped()) ==> p % SIZE == 0 && (p == 4096 || 16384 <= p)
    ensures 4096 in Pages(Gapped())
  {
    assert PageOf(Gapped()[0], 4096);
  }

  ghost function Reverse(s: seq<nat>): (r: seq<nat>)
    ensures |r| == |s| && forall i :: 0 <= i < |s| ==> r[i] == s[|s| - 1 - i]
  {
    seq(|s|, i requires 0 <= i < |s| => s[|s| - 1 - i])
  }

  lemma ReverseStep(s: seq<nat>, x: nat, rest: seq<nat>)
    ensures Reverse(s + [x]) + rest == [x] + (Reverse(s) + rest)
    ensures (Reverse(s + [x]) + rest)[1..] == Reverse(s) + rest
  {
  }

  ghost predicate NoRun(regions: seq<Region>, i: nat, bump: nat, n: nat)
    requires i <= |regions|
  {
    forall j, p: nat :: 0 <= j < i && RunOf(regions[j], p, n) ==> p < bump
  }

  lemma NoRunZero(regions: seq<Region>, bump: nat, n: nat)
    ensures NoRun(regions, 0, bump, n)
  {
  }

  lemma NoRunStep(regions: seq<Region>, i: nat, bump: nat, n: nat)
    requires i < |regions| && bump % SIZE == 0 && NoRun(regions, i, bump, n)
    requires regions[i].usable ==> regions[i].end < Candidate(regions[i], bump) + n * SIZE
    ensures NoRun(regions, i + 1, bump, n)
  {
    forall p: nat | RunOf(regions[i], p, n) ensures p < bump {
      AlignLeast(regions[i].start, p);
    }
  }

  lemma RunPages(regions: seq<Region>, i: nat, cand: nat, n: nat, bump: nat)
    requires i < |regions| && regions[i].usable && bump % SIZE == 0 && 0 < n
    requires cand == Candidate(regions[i], bump) && cand + n * SIZE <= regions[i].end
    ensures RunOf(regions[i], cand, n) && !NoRun(regions, |regions|, bump, n)
    ensures (cand + n * SIZE) % SIZE == 0
    ensures forall p :: p in Span(cand, n) ==> p in Pages(regions) && bump <= p < cand + n * SIZE
  {
    assert RunOf(regions[i], cand, n) && bump <= cand;
    SpanInside(cand, n, cand);
    forall p | p in Span(cand, n) ensures p in Pages(regions) {
      SpanPages(cand, n, p);
      SpanInside(cand, n, p);
      assert PageOf(regions[i], p);
    }
  }

  lemma SpanInside(first: nat, n: nat, p: nat)
    requires first % SIZE == 0 && p % SIZE == 0
    ensures (first + n * SIZE) % SIZE == 0 && (p < first + n * SIZE ==> p + SIZE <= first + n * SIZE)
  {
  }

  lemma NoneBeforeZero(regions: seq<Region>, bump: nat)
    ensures NoneBefore(regions, 0, bump, LOW_LIMIT)
  {
  }

  lemma NoneBeforeWeaker(regions: seq<Region>, i: nat, bump: nat, limit: nat)
    requires i <= |regions| && NoneBefore(regions, i, bump, LOW_LIMIT) && limit <= LOW_LIMIT
    ensures NoneBefore(regions, i, bump, limit)
  {
  }

  /** The low scan's extra rounding never changes the candidate. */
  lemma LowCandidate(regions: seq<Region>, i: nat, bump: nat)
    requires NoZeroPage(regions) && i < |regions| && regions[i].usable && bump % SIZE == 0
    ensures Max(AlignUp(Max(regions[i].start, 0x1000)), AlignUp(bump)) == Candidate(regions[i], bump)
  {
    AlignLeast(bump, bump);
  }

  lemma LowPage(regions: seq<Region>, i: nat, bump: nat, cand: nat)
    requires NoZeroPage(regions) && i < |regions| && PageOf(regions[i], cand)
    requires bump <= cand && cand + SIZE <= LOW_LIMIT
    ensures 0 < cand && !NoneBefore(regions, |regions|, bump, LOW_LIMIT)
  {
  }

  lemma NoneBeforeStep(regions: seq<Region>, i: nat, bump: nat)
    requires i < |regions| && bump % SIZE == 0 && NoneBefore(regions, i, bump, LOW_LIMIT)
    requires var r := regions[i]; r.usable ==> var c := Candidate(r, bump); r.end < c + SIZE || LOW_LIMIT < c + SIZE
    ensures NoneBefore(regions, i + 1, bump, LOW_LIMIT)
  {
    forall p: nat | PageOf(regions[i], p) && bump <= p ensures LOW_LIMIT < p + SIZE {
      CandidateLeast(regions[i], bump, p);
    }
  }

  lemma ListHead(words: map<nat, nat>, head: nat, free: seq<nat>)
    requires Linked(words, head, free)
    ensures head == 0 <==> free == []
    ensures free != [] ==> head == free[0] && head in words && Linked(words, words[head], free[1..])
  {
  }

  lemma PageAhead(regions: seq<Region>, i: nat, p: nat, bump: nat)
    requires i < |regions| && PageOf(regions[i], p) && bump <= p
    ensures p in Pages(regions) && Ahead(regions, bump) != {}
  {
    assert p in Ahead(regions, bump);
  }
}
