/**
 Bytes, little-endian words inside byte buffers, and single bits inside bytes: the
 encodings the storage drivers read and patch in place.
 */
module Bytes {

  type byte = b: int | 0 <= b < 256

  function U16At(b: seq<byte>, o: nat): (v: nat)
    requires o + 2 <= |b|
    ensures v < 0x1_0000
  {
    b[o] as int + 0x100 * b[o + 1] as int
  }

  function U32At(b: seq<byte>, o: nat): (v: nat)
    requires o + 4 <= |b|
    ensures v < 0x1_0000_0000
  {
    U16At(b, o) + 0x1_0000 * U16At(b, o + 2)
  }

  function PutU16(b: seq<byte>, o: nat, v: nat): (r: seq<byte>)
    requires o + 2 <= |b| && v < 0x1_0000
    ensures |r| == |b| && U16At(r, o) == v
    ensures forall i {:trigger r[i]} :: 0 <= i < |b| && (i < o || o + 2 <= i) ==> r[i] == b[i]
  {
    b[o := v % 256][o + 1 := v / 256]
  }

  function PutU32(b: seq<byte>, o: nat, v: nat): (r: seq<byte>)
    requires o + 4 <= |b| && v < 0x1_0000_0000
    ensures |r| == |b| && U32At(r, o) == v
    ensures forall i {:trigger r[i]} :: 0 <= i < |b| && (i < o || o + 4 <= i) ==> r[i] == b[i]
  {
    PutU16(PutU16(b, o, v % 0x1_0000), o + 2, v / 0x1_0000)
  }

  /** Copy `src` over `b` starting at `o` (`copy_from_slice` into a sub-slice). */
  function Blit(b: seq<byte>, o: nat, src: seq<byte>): (r: seq<byte>)
    requires o + |src| <= |b|
    ensures |r| == |b|
    ensures r[o..o + |src|] == src
    ensures forall i {:trigger r[i]} :: 0 <= i < |b| ==>
      r[i] == if o <= i < o + |src| then src[i - o] else b[i]
  {
    b[..o] + src + b[o + |src|..]
  }

  function Pow2(m: nat): (r: nat)
    ensures r >= 1
  {
    if m == 0 then 1 else 2 * Pow2(m - 1)
  }

  /** `v & (1 << k) != 0` */
  predicate Bit(v: nat, k: nat) {
    if k == 0 then v % 2 == 1 else Bit(v / 2, k - 1)
  }

  /** `v | (1 << k)` */
  function SetBit(v: nat, k: nat): (r: nat) {
    if k == 0 then v / 2 * 2 + 1 else SetBit(v / 2, k - 1) * 2 + v % 2
  }

  /** `v & !(1 << k)` */
  function ClearBit(v: nat, k: nat): (r: nat) {
    if k == 0 then v / 2 * 2 else ClearBit(v / 2, k - 1) * 2 + v % 2
  }

  lemma {:induction false} SetBitAt(v: nat, k: nat, j: nat)
    ensures Bit(SetBit(v, k), j) == (j == k || Bit(v, j))
  {
    if j > 0 && k > 0 { SetBitAt(v / 2, k - 1, j - 1); }
  }

  lemma {:induction false} ClearBitAt(v: nat, k: nat, j: nat)
    ensures Bit(ClearBit(v, k), j) == (j != k && Bit(v, j))
  {
    if j > 0 && k > 0 { ClearBitAt(v / 2, k - 1, j - 1); }
  }

  lemma {:induction false} BitsStayInWidth(v: nat, k: nat, m: nat)
    requires v < Pow2(m) && k < m
    ensures SetBit(v, k) < Pow2(m) && ClearBit(v, k) < Pow2(m)
  {
    if k > 0 { BitsStayInWidth(v / 2, k - 1, m - 1); }
  }

  /** A byte scan may skip `0xFF`: a value is all ones exactly when no bit of it is clear. */
  lemma {:induction false} AllBitsSet(v: nat, m: nat)
    requires v < Pow2(m)
    ensures v == Pow2(m) - 1 ==> forall k: nat :: k < m ==> Bit(v, k)
    ensures (forall k: nat :: k < m ==> Bit(v, k)) ==> v == Pow2(m) - 1
  {
    if m > 0 {
      AllBitsSet(v / 2, m - 1);
      if forall k: nat :: k < m ==> Bit(v, k) {
        forall k: nat | k < m - 1 ensures Bit(v / 2, k) { assert Bit(v, k + 1); }
        assert Bit(v, 0);
      }
      if v == Pow2(m) - 1 {
        forall k: nat | k < m ensures Bit(v, k) { if k > 0 { assert Bit(v / 2, k - 1); } }
      }
    }
  }
}
