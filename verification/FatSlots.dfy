/**
 Long file names: runs of 32-byte directory slots, each with thirteen 16-bit units, a sequence
 number and a checksum that ties the run to the short entry behind it.
 */
module FatSlots {
  import opened Bytes

  const ATTR_LFN: byte := 0x0F
  const LFN_LAST: nat := 0x40
  const ATTR_DIR: byte := 0x10
  const ATTR_VOLUME: byte := 0x08
  const ATTR_ARCHIVE: byte := 0x20

  type Slot = s: seq<byte> | |s| == 32 witness seq(32, i => 0)

  /** A name as 16-bit units. */
  type Name = seq<nat>

  // ---- the checksum ----

  function Rotate(sum: byte, b: byte): (r: byte) {
    ((if sum % 2 == 1 then 0x80 else 0) + sum / 2 + b) % 256
  }

  function Checksum(short: seq<byte>): (r: byte) {
    if short == [] then 0 else Rotate(Checksum(short[..|short| - 1]), short[|short| - 1])
  }

  lemma RotateInjective(s: byte, t: byte, b: byte, c: byte)
    requires (s != t && b == c) || (s == t && b != c)
    ensures Rotate(s, b) != Rotate(t, c)
  {
    var u := (if s % 2 == 1 then 0x80 else 0) + s / 2;
    var v := (if t % 2 == 1 then 0x80 else 0) + t / 2;
    if s != t { HalvesDiffer(s, t); }
    SumsDiffer(u, v, b, c);
  }

  lemma HalvesDiffer(s: byte, t: byte)
    requires s != t
    ensures (if s % 2 == 1 then 0x80 else 0) + s / 2 != (if t % 2 == 1 then 0x80 else 0) + t / 2
  {
  }

  lemma SumsDiffer(u: int, v: int, b: byte, c: byte)
    requires 0 <= u < 256 && 0 <= v < 256 && ((u != v && b == c) || (u == v && b != c))
    ensures (u + b) % 256 != (v + c) % 256
  {
  }

  /** A run never passes for a short name that differs from its own in one byte. */
  lemma {:induction false} ChecksumDetects(a: seq<byte>, b: seq<byte>, i: nat)
    requires |a| == |b| && i < |a| && a[i] != b[i]
    requires forall j :: 0 <= j < |a| && j != i ==> a[j] == b[j]
    ensures Checksum(a) != Checksum(b)
  {
    var n := |a| - 1;
    if i == n {
      assert a[..n] == b[..n];
    } else {
      ChecksumDetects(a[..n], b[..n], i);
    }
    RotateInjective(Checksum(a[..n]), Checksum(b[..n]), a[n], b[n]);
  }

  // ---- one slot ----

  /** Which unit, and which half of it, byte `k` of a long slot holds; -1 for the bytes that hold none. */
  function UnitOfByte(k: nat): (r: (int, nat))
    ensures -1 <= r.0 < 13 && r.1 < 2
  {
    if 1 <= k < 11 then ((k - 1) / 2, (k - 1) % 2)
    else if 14 <= k < 26 then (5 + (k - 14) / 2, (k - 14) % 2)
    else if 28 <= k < 32 then (11 + (k - 28) / 2, (k - 28) % 2)
    else (-1, 0)
  }

  /** The unit at place `i` of a name, zero past its end. */
  function UnitAt(units: Name, i: nat): nat {
    if i < |units| then units[i] % 0x1_0000 else 0
  }

  function SlotByte(units: Name, start: nat, order: nat, sum: byte, k: nat): byte {
    if k == 0 then (if order == 1 then 1 + LFN_LAST else order % 256)
    else if k == 11 then ATTR_LFN
    else if k == 13 then sum
    else
      var (u, half) := UnitOfByte(k);
      if u < 0 then 0
      else if half == 0 then UnitAt(units, start + u) % 256
      else UnitAt(units, start + u) / 256
  }

  /** The slot with sequence number `order` holds the thirteen units from `start`. */
  function LongSlot(units: Name, start: nat, order: nat, sum: byte): (s: Slot)
    ensures |s| == 32 && forall k :: 0 <= k < 32 ==> s[k] == SlotByte(units, start, order, sum, k)
  {
    seq<byte>(32, k requires 0 <= k < 32 => SlotByte(units, start, order, sum, k))
  }

  /** The 26 name bytes of a long slot. */
  function PartOf(s: Slot): (p: seq<byte>)
    ensures |p| == 26
  {
    s[1..11] + s[14..26] + s[28..32]
  }

  function PartUnit(p: seq<byte>, i: nat): (u: nat)
    requires |p| == 26 && i < 13
    ensures u < 0x1_0000
  {
    p[2 * i] as int + 256 * p[2 * i + 1] as int
  }

  /** Where unit `i` starts in a slot. */
  function UnitOffset(i: nat): (k: nat)
    requires i < 13
    ensures 1 <= k < 31 && k != 10 && k != 11 && k != 12 && k != 13
  {
    if i < 5 then 1 + 2 * i else if i < 11 then 14 + 2 * (i - 5) else 28 + 2 * (i - 11)
  }

  lemma OffsetOfUnit(i: nat)
    requires i < 13
    ensures UnitOfByte(UnitOffset(i)) == (i, 0) && UnitOfByte(UnitOffset(i) + 1) == (i, 1)
  {
  }

  lemma PartBytes(s: Slot, i: nat)
    requires i < 13
    ensures PartOf(s)[2 * i] == s[UnitOffset(i)] && PartOf(s)[2 * i + 1] == s[UnitOffset(i) + 1]
  {
  }

  /** Reading a slot back gives the units that were stored in it. */
  lemma SlotReadsBack(units: Name, start: nat, order: nat, sum: byte, i: nat)
    requires i < 13
    ensures PartUnit(PartOf(LongSlot(units, start, order, sum)), i) == UnitAt(units, start + i)
  {
    hide PartOf, UnitOfByte, UnitOffset, UnitAt;
    PartBytes(LongSlot(units, start, order, sum), i);
    OffsetOfUnit(i);
  }

  // ---- runs of slots ----

  /** How many slots a name needs. */
  function SlotCount(n: nat): (c: nat)
    ensures 1 <= c && n <= 13 * c && (1 < c ==> 13 * (c - 1) < n)
  {
    if n == 0 then 1 else (n + 12) / 13
  }

  /** The slots of a name in the order they lie on disk: sequence numbers count down to 1. */
  function LongSlots(units: Name, sum: byte): (r: seq<Slot>)
    ensures |r| == SlotCount(|units|)
    ensures forall j :: 0 <= j < |r| ==> r[j] == LongSlot(units, 13 * j, |r| - j, sum)
  {
    var count := SlotCount(|units|);
    seq(count, j requires 0 <= j < count => LongSlot(units, 13 * j, count - j, sum))
  }

  /** The run a reader has collected: parts by sequence number, the checksum, the number it expects next. */
  datatype Run = Run(parts: seq<(nat, seq<byte>)>, sum: byte, next: nat)

  const CLEAR: Run := Run([], 0, 0)

  /** A reader takes one more long slot: it continues the run or starts another. */
  function Extend(run: Run, s: Slot): Run {
    var order := s[0] % 32;
    var kept := if run.next == 0 || order != run.next then [] else run.parts;
    Run(kept + [(order, PartOf(s))], s[13], if order > 1 then order - 1 else 0)
  }

  function ExtendAll(run: Run, slots: seq<Slot>): Run {
    if slots == [] then run else Extend(ExtendAll(run, slots[..|slots| - 1]), slots[|slots| - 1])
  }

  /** A collected run counts down strictly, so sorting it by sequence number changes nothing. */
  predicate RunOk(run: Run) {
    && |run.parts| + run.next <= 31
    && (forall k :: 0 <= k < |run.parts| ==> |run.parts[k].1| == 26)
    && (forall j, k :: 0 <= j < k < |run.parts| ==> run.parts[j].0 > run.parts[k].0)
    && (run.parts != [] && run.next > 0 ==> run.parts[|run.parts| - 1].0 == run.next + 1)
  }

  lemma ExtendOk(run: Run, s: Slot)
    requires RunOk(run)
    ensures RunOk(Extend(run, s))
  {
  }

  lemma {:induction false} ExtendAllOk(run: Run, slots: seq<Slot>)
    requires RunOk(run)
    ensures RunOk(ExtendAll(run, slots))
  {
    if slots != [] {
      ExtendAllOk(run, slots[..|slots| - 1]);
      ExtendOk(ExtendAll(run, slots[..|slots| - 1]), slots[|slots| - 1]);
    }
  }

  function PartUnits(p: seq<byte>): (u: Name)
    requires |p| == 26
    ensures |u| == 13 && forall i :: 0 <= i < 13 ==> u[i] == PartUnit(p, i)
  {
    seq(13, i requires 0 <= i < 13 => PartUnit(p, i))
  }

  /** All units of a run, in the order of its parts. */
  function RunUnits(parts: seq<(nat, seq<byte>)>): (u: Name)
    requires forall k :: 0 <= k < |parts| ==> |parts[k].1| == 26
    ensures |u| == 13 * |parts|
  {
    if parts == [] then []
    else RunUnits(parts[..|parts| - 1]) + PartUnits(parts[|parts| - 1].1)
  }

  lemma {:induction false} RunUnitsAt(parts: seq<(nat, seq<byte>)>, k: nat, i: nat)
    requires (forall j :: 0 <= j < |parts| ==> |parts[j].1| == 26) && k < |parts| && i < 13
    ensures RunUnits(parts)[13 * k + i] == PartUnit(parts[k].1, i)
  {
    hide PartUnit;
    if k < |parts| - 1 {
      RunUnitsAt(parts[..|parts| - 1], k, i);
    }
  }

  predicate Surrogate(u: nat) {
    0xD800 <= u < 0xE000
  }

  /** Decode units up to the first terminator. */
  function Decode(u: Name): (r: Name)
    ensures |r| <= |u|
  {
    if u == [] || u[0] == 0 || u[0] == 0xFFFF then []
    else [if Surrogate(u[0]) then 0x3F else u[0]] + Decode(u[1..])
  }

  function LongName(run: Run): (r: Name)
    requires RunOk(run)
    ensures |r| <= 13 * |run.parts|
  {
    Decode(RunUnits(run.parts))
  }

  /** A name that survives the format: sixteen-bit characters, none of them a terminator or a surrogate. */
  predicate Storable(units: Name) {
    forall i :: 0 <= i < |units| ==> 0 < units[i] < 0xFFFF && !Surrogate(units[i])
  }

  lemma {:induction false} DecodePadded(units: Name, u: Name)
    requires Storable(units) && |units| <= |u| && u[..|units|] == units
    requires |units| == |u| || u[|units|] == 0
    ensures Decode(u) == units
    decreases |units|
  {
    if units != [] {
      assert u[0] == units[0];
      assert u[1..][..|units| - 1] == units[1..];
      DecodePadded(units[1..], u[1..]);
    }
  }

  /** After `j` slots of a name the reader holds its first `j` chunks and expects the next number. */
  lemma {:induction false} RunOfSlots(units: Name, sum: byte, j: nat)
    requires SlotCount(|units|) <= 31 && 0 < j <= SlotCount(|units|)
    ensures var count := SlotCount(|units|); var run := ExtendAll(CLEAR, LongSlots(units, sum)[..j]);
      && |run.parts| == j && run.sum == sum && run.next == count - j
      && forall k :: 0 <= k < j ==> run.parts[k] == (count - k, PartOf(LongSlot(units, 13 * k, count - k, sum)))
  {
    var slots := LongSlots(units, sum);
    var count := |slots|;
    assert slots[..j][..j - 1] == slots[..j - 1];
    var last := slots[j - 1];
    assert last[0] % 32 == count - (j - 1) && last[13] == sum by { SlotHead(units, 13 * (j - 1), count - (j - 1), sum); }
    if j > 1 {
      RunOfSlots(units, sum, j - 1);
    }
  }

  lemma SlotHead(units: Name, start: nat, order: nat, sum: byte)
    requires 1 <= order <= 31
    ensures var s := LongSlot(units, start, order, sum); s[0] % 32 == order && s[11] == ATTR_LFN && s[13] == sum
  {
  }

  /** Whatever a reader decodes could be stored again. */
  lemma {:induction false} DecodeStorable(u: Name)
    requires forall i :: 0 <= i < |u| ==> u[i] < 0x1_0000
    ensures Storable(Decode(u))
  {
    if !(u == [] || u[0] == 0 || u[0] == 0xFFFF) {
      DecodeStorable(u[1..]);
    }
  }

  /** Decoding stops at the first zero. */
  lemma {:induction false} DecodeStops(u: Name, n: nat)
    requires n <= |u| && (n < |u| ==> u[n] == 0)
    ensures |Decode(u)| <= n
    decreases n
  {
    if n > 0 && u[0] != 0 && u[0] != 0xFFFF {
      DecodeStops(u[1..], n - 1);
    }
  }

  lemma {:induction false} RunUnitsWide(parts: seq<(nat, seq<byte>)>)
    requires forall k :: 0 <= k < |parts| ==> |parts[k].1| == 26
    ensures forall i :: 0 <= i < |RunUnits(parts)| ==> RunUnits(parts)[i] < 0x1_0000
  {
    hide PartUnit;
    if parts != [] {
      RunUnitsWide(parts[..|parts| - 1]);
    }
  }

  /**
   A name comes back from its slots exactly when the format can hold every unit of it and it
   fits 31 slots of thirteen units; what comes back could always be stored.
   */
  lemma LongNameRoundTrip(units: Name, sum: byte)
    ensures RunOk(ExtendAll(CLEAR, LongSlots(units, sum)))
    ensures LongName(ExtendAll(CLEAR, LongSlots(units, sum))) == units <==> |units| <= 403 && Storable(units)
    ensures Storable(LongName(ExtendAll(CLEAR, LongSlots(units, sum))))
    ensures |units| <= 403 ==> var run := ExtendAll(CLEAR, LongSlots(units, sum));
      run.sum == sum && run.parts != [] && |LongName(run)| <= |units|
  {
    hide Decode, RunUnits, ExtendAll, LongSlots, Storable, RunOk, SlotCount;
    var slots := LongSlots(units, sum);
    var run := ExtendAll(CLEAR, slots);
    assert RunOk(CLEAR) by { ClearOk(); }
    ExtendAllOk(CLEAR, slots);
    RunBounds(run);
    RunUnitsWide(run.parts);
    DecodeStorable(RunUnits(run.parts));
    if |units| <= 403 {
      ShortRun(units, sum);
      RunHolds(units, sum, run);
      DecodeStops(RunUnits(run.parts), |units|);
      if Storable(units) {
        HeldUnits(units, RunUnits(run.parts));
        DecodePadded(units, RunUnits(run.parts));
      }
    }
  }

  lemma ClearOk()
    ensures RunOk(CLEAR)
  {
  }

  lemma RunBounds(run: Run)
    requires RunOk(run)
    ensures |run.parts| <= 31 && forall k :: 0 <= k < |run.parts| ==> |run.parts[k].1| == 26
  {
  }

  lemma ShortRun(units: Name, sum: byte)
    requires |units| <= 403
    ensures var run := ExtendAll(CLEAR, LongSlots(units, sum));
      run.sum == sum && run.parts != [] && |run.parts| == SlotCount(|units|) && FromName(units, sum, run.parts)
  {
    var slots := LongSlots(units, sum);
    assert slots[..|slots|] == slots;
    RunOfSlots(units, sum, |slots|);
  }

  lemma HeldUnits(units: Name, u: Name)
    requires Storable(units) && |units| <= |u| && forall i: nat :: i < |u| ==> u[i] == UnitAt(units, i)
    ensures u[..|units|] == units
  {
  }

  /** The run holds, chunk by chunk, what the slots of the name were built from. */
  ghost predicate FromName(units: Name, sum: byte, parts: seq<(nat, seq<byte>)>) {
    forall k :: 0 <= k < |parts| ==> parts[k].1 == PartOf(LongSlot(units, 13 * k, |parts| - k, sum))
  }

  lemma RunUnit(units: Name, sum: byte, run: Run, i: nat)
    requires RunOk(run) && i < 13 * |run.parts| && FromName(units, sum, run.parts)
    ensures RunUnits(run.parts)[i] == UnitAt(units, i)
  {
    hide RunUnits, PartOf, PartUnit, UnitAt;
    var k := i / 13;
    var u := RunUnits(run.parts);
    assert i == 13 * k + i % 13;
    RunUnitsAt(run.parts, k, i % 13);
    SlotReadsBack(units, 13 * k, |run.parts| - k, sum, i % 13);
  }

  lemma RunHolds(units: Name, sum: byte, run: Run)
    requires RunOk(run) && |run.parts| == SlotCount(|units|) && FromName(units, sum, run.parts)
    ensures var u := RunUnits(run.parts);
      |units| <= |u| && (forall i: nat :: i < |u| ==> u[i] == UnitAt(units, i)) && (|units| == |u| || u[|units|] == 0)
  {
    var u := RunUnits(run.parts);
    forall i: nat | i < |u| ensures u[i] == UnitAt(units, i) {
      RunUnit(units, sum, run, i);
    }
  }
}
