/**
 The FAT itself: cluster chains threaded through a table that is kept in several identical
 copies, with the operations that walk, extend and truncate a chain.
 */
module FatChain {
  import opened Fs

  const EOC: nat := 0x0FFF_FFFF
  const EOC_MIN: nat := 0x0FFF_FFF8
  const MASK: nat := 0x1000_0000

  /** The low 28 bits of an entry are the link. */
  function Link(fat: seq<nat>, c: nat): nat
    requires c < |fat|
  {
    fat[c] % MASK
  }

  predicate Cluster(total: nat, c: nat) {
    2 <= c <= 1 + total
  }

  /** A chain: distinct data clusters, each linked to the next, the last one marked as the end. */
  ghost predicate IsChain(fat: seq<nat>, total: nat, cs: seq<nat>)
    requires |fat| > 1 + total
  {
    && cs != []
    && (forall i :: 0 <= i < |cs| ==> Cluster(total, cs[i]))
    && (forall i, j :: 0 <= i < j < |cs| ==> cs[i] != cs[j])
    && (forall i :: 0 <= i < |cs| - 1 ==> Link(fat, cs[i]) == cs[i + 1])
    && EOC_MIN <= Link(fat, cs[|cs| - 1])
  }

  ghost predicate Apart(a: seq<nat>, b: seq<nat>) {
    forall i, j :: 0 <= i < |a| && 0 <= j < |b| ==> a[i] != b[j]
  }

  /** The files of the volume: chains that share no cluster, named by their first one. */
  ghost predicate ChainsOk(fat: seq<nat>, total: nat, chains: map<nat, seq<nat>>)
    requires |fat| > 1 + total
  {
    && (forall f :: f in chains ==> IsChain(fat, total, chains[f]) && chains[f][0] == f)
    && (forall f, g :: f in chains && g in chains && f != g ==> Apart(chains[f], chains[g]))
  }

  ghost function Free(fat: seq<nat>, total: nat): set<nat>
    requires |fat| > 1 + total
  {
    set c: nat | 2 <= c < total + 2 && fat[c] == 0
  }

  // ---- chains under updates ----

  /** Entries outside a chain do not matter to it. */
  lemma ChainFrame(fat: seq<nat>, gat: seq<nat>, total: nat, cs: seq<nat>)
    requires |fat| == |gat| > 1 + total && IsChain(fat, total, cs)
    requires forall i :: 0 <= i < |cs| ==> gat[cs[i]] == fat[cs[i]]
    ensures IsChain(gat, total, cs)
  {
  }

  /** A free entry is in no chain. */
  lemma FreeNotChained(fat: seq<nat>, total: nat, cs: seq<nat>, c: nat)
    requires |fat| > 1 + total && IsChain(fat, total, cs) && c < |fat| && fat[c] == 0
    ensures c !in cs
  {
    forall i | 0 <= i < |cs| ensures cs[i] != c {
      LinksLive(fat, total, cs, i);
    }
  }

  lemma LinksLive(fat: seq<nat>, total: nat, cs: seq<nat>, i: nat)
    requires |fat| > 1 + total && IsChain(fat, total, cs) && i < |cs|
    ensures 2 <= Link(fat, cs[i])
    ensures i + 1 < |cs| ==> Link(fat, cs[i]) == cs[i + 1] && Cluster(total, cs[i + 1])
  {
    if i + 1 < |cs| { assert Cluster(total, cs[i + 1]); }
  }

  /** One step of a walk along a chain: the link leads on until the last cluster, and says so there. */
  lemma WalkStep(fat: seq<nat>, total: nat, cs: seq<nat>, i: nat)
    requires |fat| > 1 + total && 1 + total < EOC_MIN && IsChain(fat, total, cs) && i < |cs|
    ensures cs[i] < |fat| && 2 <= Link(fat, cs[i]) && (EOC_MIN <= Link(fat, cs[i]) <==> i + 1 == |cs|)
    ensures i + 1 < |cs| ==> Link(fat, cs[i]) == cs[i + 1] && cs[i + 1] < |fat|
  {
    hide Link;
    assert Cluster(total, cs[i]);
    if i + 1 < |cs| { assert Cluster(total, cs[i + 1]); }
  }

  /** A walk has taken `out`, the first part of the chain, and stands at the next cluster. */
  ghost predicate Along(cs: seq<nat>, out: seq<nat>, c: nat) {
    |out| < |cs| && out == cs[..|out|] && c == cs[|out|]
  }

  lemma AlongStart(cs: seq<nat>)
    requires cs != []
    ensures Along(cs, [], cs[0])
  {
  }

  lemma AlongStep(fat: seq<nat>, total: nat, cs: seq<nat>, out: seq<nat>, c: nat)
    requires |fat| > 1 + total && 1 + total < EOC_MIN && IsChain(fat, total, cs) && Along(cs, out, c)
    ensures c < |fat| && 2 <= Link(fat, c) && |out| + 1 <= |cs|
    ensures EOC_MIN <= Link(fat, c) || |out| + 1 == |cs| ==> out + [c] == cs
    ensures Link(fat, c) < EOC_MIN ==> Link(fat, c) < |fat| && Along(cs, out + [c], Link(fat, c))
  {
    hide IsChain, Link;
    WalkStep(fat, total, cs, |out|);
    assert out + [c] == cs[..|out| + 1];
    if |out| + 1 == |cs| { assert cs[..|out| + 1] == cs; }
  }

  lemma ChainAppend(fat: seq<nat>, total: nat, cs: seq<nat>, c: nat)
    requires |fat| > 1 + total && IsChain(fat, total, cs) && Cluster(total, c) && fat[c] == 0
    requires 1 + total < EOC_MIN
    ensures IsChain(fat[c := EOC][cs[|cs| - 1] := c], total, cs + [c])
  {
    FreeNotChained(fat, total, cs, c);
    var gat := fat[c := EOC][cs[|cs| - 1] := c];
    var ds := cs + [c];
    assert c % MASK == c && EOC % MASK == EOC;
    forall i | 0 <= i < |ds| - 1 ensures Link(gat, ds[i]) == ds[i + 1] {
    }
  }

  lemma ChainTruncate(fat: seq<nat>, gat: seq<nat>, total: nat, cs: seq<nat>, keep: nat)
    requires |fat| == |gat| > 1 + total && IsChain(fat, total, cs) && 0 < keep <= |cs|
    requires gat[cs[keep - 1]] == EOC && forall i :: 0 <= i < keep - 1 ==> gat[cs[i]] == fat[cs[i]]
    ensures IsChain(gat, total, cs[..keep])
  {
    assert EOC % MASK == EOC;
  }

  /** Distinct data clusters cannot outnumber the volume. */
  lemma ChainFits(fat: seq<nat>, total: nat, cs: seq<nat>)
    requires |fat| > 1 + total && IsChain(fat, total, cs)
    ensures |cs| <= total
  {
    Pigeonhole(cs, 2, total + 2);
  }

  lemma {:induction false} Pigeonhole(cs: seq<nat>, lo: nat, hi: nat)
    requires lo <= hi && (forall i :: 0 <= i < |cs| ==> lo <= cs[i] < hi)
    requires forall i, j :: 0 <= i < j < |cs| ==> cs[i] != cs[j]
    ensures |cs| <= hi - lo
    decreases hi - lo
  {
    assert |cs| > 0 ==> lo <= cs[0] < hi;
    if lo < hi {
      if exists i :: 0 <= i < |cs| && cs[i] == hi - 1 {
        var i :| 0 <= i < |cs| && cs[i] == hi - 1;
        var rest := cs[..i] + cs[i + 1..];
        assert forall k :: 0 <= k < |rest| ==> rest[k] == if k < i then cs[k] else cs[k + 1];
        Pigeonhole(rest, lo, hi - 1);
      } else {
        Pigeonhole(cs, lo, hi - 1);
      }
    }
  }

  /** Every link names an entry of the table or ends a chain. */
  ghost predicate Inside(fat: seq<nat>) {
    forall c :: 0 <= c < |fat| ==> Link(fat, c) < |fat| || EOC_MIN <= Link(fat, c)
  }

  class FatTable {
    const total: nat
    var fats: seq<seq<nat>>
    ghost var chains: map<nat, seq<nat>>

    /** All copies agree, and the files are disjoint terminated chains. */
    ghost predicate Valid()
      reads this
    {
      && 0 < |fats| && 1 + total < EOC_MIN
      && (forall f :: 0 <= f < |fats| ==> fats[f] == fats[0])
      && |fats[0]| > 1 + total && Inside(fats[0])
      && ChainsOk(fats[0], total, chains)
    }

    constructor (fats: seq<seq<nat>>, total: nat, ghost chains: map<nat, seq<nat>>)
      requires 0 < |fats| && 1 + total < EOC_MIN && |fats[0]| > 1 + total
      requires Inside(fats[0]) && (forall f :: 0 <= f < |fats| ==> fats[f] == fats[0]) && ChainsOk(fats[0], total, chains)
      ensures Valid() && this.fats == fats && this.total == total && this.chains == chains
    {
      this.fats, this.total, this.chains := fats, total, chains;
    }

    method FatEntry(c: nat) returns (e: nat)
      requires 0 < |fats| && c < |fats[0]|
      ensures e == fats[0][c]
    {
      e := fats[0][c];
    }

    /** Write one entry into every copy. */
    method SetFatEntry(c: nat, val: nat)
      requires 0 < |fats| && c < |fats[0]| && (forall f :: 0 <= f < |fats| ==> fats[f] == fats[0])
      modifies this`fats
      ensures |fats| == |old(fats)| && forall f :: 0 <= f < |fats| ==> fats[f] == old(fats)[0][c := val]
    {
      var f := 0;
      while f < |fats|
        invariant f <= |fats| == |old(fats)|
        invariant forall g :: 0 <= g < |fats| ==> fats[g] == if g < f then old(fats)[0][c := val] else old(fats)[0]
      {
        var copy: seq<nat> := fats[f][c := val];
        fats := fats[f := copy];
        f := f + 1;
      }
    }

    method NextCluster(c: nat) returns (r: Result<Option<nat>>)
      requires 0 < |fats| && c < |fats[0]|
      ensures var e := Link(fats[0], c); r == if EOC_MIN <= e then Ok(None) else if e < 2 then Err(BadFs) else Ok(Some(e))
    {
      var entry := FatEntry(c);
      var e := entry % MASK;
      if EOC_MIN <= e { return Ok(None); }
      if e < 2 { return Err(BadFs); }
      return Ok(Some(e));
    }

    /** Walking a file returns its clusters in order; a walk never exceeds its limit. */
    method WalkChain(first: nat, max: nat) returns (r: Result<seq<nat>>)
      requires Valid() && first < |fats[0]|
      ensures first in chains && |chains[first]| <= max ==> r == Ok(chains[first])
      ensures r.Ok? ==> 0 < |r.value| <= Max(1, max) && r.value[0] == first
      ensures r.Err? ==> r.error == BadFs
    {
      ghost var known := first in chains && |chains[first]| <= max;
      ghost var cs: seq<nat> := if known then chains[first] else [first];
      assert known ==> IsChain(fats[0], total, cs) && cs[0] == first;
      hide IsChain, ChainsOk, Link, Along;
      var out: seq<nat> := [];
      var c: nat := first;
      AlongStart(cs);
      while true
        invariant |out| < Max(1, max) && c < |fats[0]| && (out != [] ==> out[0] == first) && (out == [] ==> c == first)
        invariant known ==> Along(cs, out, c)
        decreases Max(1, max) - |out|
      {
        if known { AlongStep(fats[0], total, cs, out, c); }
        out := out + [c];
        if |out| >= max { break; }
        var n := NextCluster(c);
        if n.Err? { return Err(n.error); }
        if n.value.None? { break; }
        c := n.value.value;
      }
      return Ok(out);
    }

    /**
     Take the lowest free cluster, alone or as the new tail of a file. Nothing else moves, and
     it fails exactly when no cluster is free.
     */
    method AllocCluster(prev: Option<nat>, ghost first: nat) returns (r: Result<nat>)
      requires Valid() && (prev.Some? ==> first in chains && prev.value == Last(chains[first]))
      modifies this
      ensures Valid() && |fats| == |old(fats)| && |fats[0]| == |old(fats)[0]|
      ensures r.Err? ==> r.error == NoSpace && fats == old(fats) && chains == old(chains)
      ensures r.Err? <==> Free(old(fats)[0], total) == {}
      ensures r.Ok? ==> r.value in Free(old(fats)[0], total) && Free(fats[0], total) == Free(old(fats)[0], total) - {r.value}
      ensures r.Ok? ==> forall c :: c in Free(old(fats)[0], total) ==> r.value <= c
      ensures r.Ok? ==> chains == if prev.Some? then old(chains)[first := old(chains)[first] + [r.value]] else old(chains)[r.value := [r.value]]
      ensures forall c :: 0 <= c < |fats[0]| && r.Ok? && c != r.value && Some(c) != prev ==> fats[0][c] == old(fats)[0][c]
    {
      hide ChainsOk, Inside;
      ghost var fat := fats[0];
      var c: nat := 2;
      while c <= 1 + total
        invariant 2 <= c <= total + 2 && unchanged(this)
        invariant forall d :: 2 <= d < c ==> fat[d] != 0
      {
        var e := FatEntry(c);
        if e == 0 {
          assert c in Free(fat, total);
          TakeDone(fat, total, chains, c, prev, first);
          SetFatEntry(c, EOC);
          if prev.Some? {
            SetFatEntry(prev.value, c);
            chains := chains[first := chains[first] + [c]];
          } else {
            chains := chains[c := [c]];
          }
          return Ok(c);
        }
        c := c + 1;
      }
      return Err(NoSpace);
    }

    /** Truncating and freeing: every cluster past `keep` is free again, the rest is one chain. */
    method FreeFrom(first: nat, keep: nat)
      requires Valid() && first in chains && keep <= |chains[first]|
      modifies this
      ensures Valid() && |fats| == |old(fats)| && |fats[0]| == |old(fats)[0]|
      ensures chains == if keep == 0 then old(chains) - {first} else old(chains)[first := old(chains)[first][..keep]]
      ensures Free(fats[0], total) == Free(old(fats)[0], total) + Elements(old(chains)[first][keep..])
      ensures forall c :: 0 <= c < |fats[0]| && c !in old(chains)[first] ==> fats[0][c] == old(fats)[0][c]
    {
      hide Free, Cut, Inside;
      ghost var cs := chains[first];
      ghost var fat := fats[0];
      assert IsChain(fat, total, cs);
      ChainFits(fat, total, cs);
      assert Cluster(total, cs[0]);
      var walked := WalkChain(first, total);
      var chain := walked.value;
      CutStart(fat, cs, keep);
      var i := 0;
      while i < |chain|
        invariant i <= |chain| && |fats| == |old(fats)| && chain == cs && unchanged(this`chains)
        invariant forall f :: 0 <= f < |fats| ==> fats[f] == fats[0]
        invariant |fats[0]| == |fat| && Cut(fat, fats[0], cs, keep, i)
      {
        CutStep(fat, fats[0], total, cs, keep, i);
        if i >= keep {
          SetFatEntry(chain[i], 0);
        }
        i := i + 1;
      }
      ghost var gat := fats[0];
      if keep > 0 {
        SetFatEntry(chain[keep - 1], EOC);
        chains := chains[first := cs[..keep]];
      } else {
        chains := chains - {first};
      }
      CutDone(fat, gat, total, old(chains), first, keep);
    }

    /** Append up to `n` clusters, each one free until then. */
    method Grow(first: nat, n: nat) returns (grown: nat, ghost tail: seq<nat>)
      requires Valid() && first in chains
      modifies this
      ensures Valid() && |tail| == grown <= n && chains == old(chains)[first := old(chains)[first] + tail]
      ensures Free(fats[0], total) == Free(old(fats)[0], total) - Elements(tail)
      ensures Elements(tail) <= Free(old(fats)[0], total) && |Elements(tail)| == grown
      ensures grown < n ==> Elements(tail) == Free(old(fats)[0], total)
    {
      hide Free, ChainsOk, Inside;
      ghost var cs := chains[first];
      ghost var free := Free(fats[0], total);
      tail := [];
      grown := 0;
      assert cs + [] == cs && Elements([]) == {};
      while grown < n
        invariant Valid() && |tail| == grown <= n && chains == old(chains)[first := cs + tail]
        invariant Free(fats[0], total) == free - Elements(tail) && Elements(tail) <= free && |Elements(tail)| == grown
      {
        var end := LastCluster(first);
        var r := AllocCluster(Some(end), first);
        if r.Err? { break; }
        assert (cs + tail) + [r.value] == cs + (tail + [r.value]);
        ElemsStep(tail, r.value, free);
        tail := tail + [r.value];
        grown := grown + 1;
      }
    }

    /** Growing a file and truncating it back gives every cluster back and restores the chain. */
    method GrowThenShrink(first: nat, n: nat) returns (grown: nat)
      requires Valid() && first in chains
      modifies this
      ensures Valid() && grown <= n && chains == old(chains) && Free(fats[0], total) == Free(old(fats)[0], total)
      ensures grown < n ==> grown == |Free(old(fats)[0], total)|
    {
      hide Free, ChainsOk, Inside, Elements;
      ghost var cs := chains[first];
      var keep := CountChain(first);
      ghost var tail;
      grown, tail := Grow(first, n);
      assert (cs + tail)[..|cs|] == cs && (cs + tail)[|cs|..] == tail;
      FreeFrom(first, keep);
      BackAgain(old(chains), first, cs + tail, Free(old(fats)[0], total), Elements(tail));
    }

    method CountChain(first: nat) returns (n: nat)
      requires Valid() && first in chains
      ensures 0 < n == |chains[first]|
    {
      ChainNonempty(fats[0], total, chains[first]);
      ChainFits(fats[0], total, chains[first]);
      var walked := WalkChain(first, total);
      n := |walked.value|;
    }

    method LastCluster(first: nat) returns (c: nat)
      requires Valid() && first in chains
      ensures c == Last(chains[first])
    {
      ChainNonempty(fats[0], total, chains[first]);
      ChainFits(fats[0], total, chains[first]);
      var walked := WalkChain(first, total);
      c := walked.value[|walked.value| - 1];
    }
  }

  lemma BackAgain(chains: map<nat, seq<nat>>, first: nat, more: seq<nat>, free: set<nat>, tail: set<nat>)
    requires first in chains && tail <= free
    ensures chains[first := more][first := chains[first]] == chains && free - tail + tail == free
  {
  }

  lemma ElemsStep(s: seq<nat>, x: nat, free: set<nat>)
    requires Elements(s) <= free && x in free - Elements(s)
    ensures Elements(s + [x]) == Elements(s) + {x} && free - Elements(s) - {x} == free - Elements(s + [x])
    ensures |Elements(s + [x])| == |Elements(s)| + 1
  {
  }

  ghost function Last(cs: seq<nat>): nat {
    if cs == [] then 0 else cs[|cs| - 1]
  }

  /** The table once `c` is taken as the end of a chain, behind `prev` if there is one. */
  ghost function Taken(fat: seq<nat>, c: nat, prev: Option<nat>): (out: seq<nat>)
    requires c < |fat| && (prev.Some? ==> prev.value < |fat|)
    ensures |out| == |fat|
  {
    if prev.Some? then fat[c := EOC][prev.value := c] else fat[c := EOC]
  }

  lemma TakeChains(fat: seq<nat>, total: nat, chains: map<nat, seq<nat>>, c: nat, prev: Option<nat>, first: nat)
    requires |fat| > 1 + total && 1 + total < EOC_MIN && ChainsOk(fat, total, chains) && Cluster(total, c) && fat[c] == 0
    requires prev.Some? ==> first in chains && prev.value == Last(chains[first]) && prev.value < |fat|
    ensures ChainsOk(Taken(fat, c, prev), total, if prev.Some? then chains[first := chains[first] + [c]] else chains[c := [c]])
  {
    hide IsChain;
    var out := Taken(fat, c, prev);
    var after := if prev.Some? then chains[first := chains[first] + [c]] else chains[c := [c]];
    forall f | f in chains ensures c !in chains[f] && chains[f] != [] {
      FreeNotChained(fat, total, chains[f], c);
      ChainNonempty(fat, total, chains[f]);
    }
    forall f | f in after ensures IsChain(out, total, after[f]) && after[f] != [] && after[f][0] == f {
      if prev.Some? && f == first {
        ChainAppend(fat, total, chains[f], c);
      } else if f == c {
        ChainAlone(fat, out, total, c);
      } else {
        ChainNonempty(fat, total, chains[f]);
        if prev.Some? { assert Apart(chains[f], chains[first]); }
        ChainFrame(fat, out, total, chains[f]);
      }
    }
    forall f, g | f in after && g in after && f != g ensures Apart(after[f], after[g]) {
      if f in chains && g in chains { assert Apart(chains[f], chains[g]); }
    }
  }

  lemma ChainAlone(fat: seq<nat>, out: seq<nat>, total: nat, c: nat)
    requires |out| > 1 + total && Cluster(total, c) && out[c] == EOC
    ensures IsChain(out, total, [c])
  {
    assert EOC % MASK == EOC;
  }

  lemma TakeDone(fat: seq<nat>, total: nat, chains: map<nat, seq<nat>>, c: nat, prev: Option<nat>, first: nat)
    requires |fat| > 1 + total && 1 + total < EOC_MIN && Inside(fat) && ChainsOk(fat, total, chains)
    requires Cluster(total, c) && fat[c] == 0
    requires prev.Some? ==> first in chains && prev.value == Last(chains[first])
    ensures prev.Some? ==> prev.value < |fat| && prev.value != c
    ensures var out := Taken(fat, c, prev);
      && Inside(out) && Free(out, total) == Free(fat, total) - {c}
      && ChainsOk(out, total, if prev.Some? then chains[first := chains[first] + [c]] else chains[c := [c]])
  {
    if prev.Some? {
      ChainNonempty(fat, total, chains[first]);
      LinksLive(fat, total, chains[first], |chains[first]| - 1);
    }
    TakeChains(fat, total, chains, c, prev, first);
    hide ChainsOk, IsChain;
    assert EOC % MASK == EOC && c % MASK == c;
    var out := Taken(fat, c, prev);
    assert forall d :: 0 <= d < |fat| && d != c && Some(d) != prev ==> Link(out, d) == Link(fat, d);
  }

  lemma CutStart(fat: seq<nat>, cs: seq<nat>, keep: nat)
    ensures Cut(fat, fat, cs, keep, 0)
  {
  }

  lemma CutStep(fat: seq<nat>, gat: seq<nat>, total: nat, cs: seq<nat>, keep: nat, i: nat)
    requires |fat| > 1 + total && IsChain(fat, total, cs) && i < |cs| && Cut(fat, gat, cs, keep, i)
    ensures cs[i] < |gat|
    ensures Cut(fat, if i >= keep then gat[cs[i] := 0] else gat, cs, keep, i + 1)
  {
    assert Cluster(total, cs[i]);
    var hat := if i >= keep then gat[cs[i] := 0] else gat;
    forall c | 0 <= c < |fat| && (forall j :: keep <= j < i + 1 ==> cs[j] != c) ensures hat[c] == fat[c] {
    }
  }

  /** The table once a chain is cut to `keep` clusters. */
  ghost predicate CutTo(fat: seq<nat>, out: seq<nat>, cs: seq<nat>, keep: nat)
    requires keep <= |cs|
  {
    && |out| == |fat|
    && (forall i :: keep <= i < |cs| ==> cs[i] < |out| && out[cs[i]] == 0)
    && (0 < keep ==> cs[keep - 1] < |out| && out[cs[keep - 1]] == EOC)
    && (forall c :: 0 <= c < |fat| && (forall i :: 0 <= i < |cs| && keep <= i + 1 ==> cs[i] != c) ==> out[c] == fat[c])
  }

  lemma CutInside(fat: seq<nat>, out: seq<nat>, cs: seq<nat>, keep: nat)
    requires Inside(fat) && keep <= |cs| && CutTo(fat, out, cs, keep)
    ensures Inside(out)
  {
    assert 0 % MASK == 0 && EOC % MASK == EOC;
    forall c | 0 <= c < |out| ensures Link(out, c) < |out| || EOC_MIN <= Link(out, c) {
      if out[c] == fat[c] {
        assert Link(out, c) == Link(fat, c);
      } else {
        var i :| 0 <= i < |cs| && keep <= i + 1 && cs[i] == c;
      }
    }
  }

  lemma CutFree(fat: seq<nat>, out: seq<nat>, total: nat, cs: seq<nat>, keep: nat)
    requires |fat| > 1 + total && IsChain(fat, total, cs) && keep <= |cs| && CutTo(fat, out, cs, keep)
    ensures Free(out, total) == Free(fat, total) + Elements(cs[keep..])
  {
    forall c: nat | 2 <= c < total + 2 ensures out[c] == 0 <==> fat[c] == 0 || c in cs[keep..] {
      CutEntry(fat, out, total, cs, keep, c);
    }
    forall c | c in cs[keep..] ensures 2 <= c < total + 2 {
      assert c in cs;
      var i :| 0 <= i < |cs| && cs[i] == c;
      assert Cluster(total, cs[i]);
    }
    hide IsChain, CutTo, Link;
  }

  lemma CutEntry(fat: seq<nat>, out: seq<nat>, total: nat, cs: seq<nat>, keep: nat, c: nat)
    requires |fat| > 1 + total && IsChain(fat, total, cs) && keep <= |cs| && CutTo(fat, out, cs, keep) && 2 <= c < total + 2
    ensures out[c] == 0 <==> fat[c] == 0 || c in cs[keep..]
  {
    if c in cs[keep..] {
      var j :| 0 <= j < |cs[keep..]| && cs[keep..][j] == c;
      assert cs[keep + j] == c;
    } else {
      assert forall i :: keep <= i < |cs| ==> cs[keep..][i - keep] == cs[i];
      if fat[c] == 0 { FreeNotChained(fat, total, cs, c); }
    }
  }

  lemma CutChains(fat: seq<nat>, out: seq<nat>, total: nat, chains: map<nat, seq<nat>>, first: nat, keep: nat)
    requires |fat| > 1 + total && ChainsOk(fat, total, chains) && first in chains && keep <= |chains[first]|
    requires CutTo(fat, out, chains[first], keep)
    ensures ChainsOk(out, total, if keep == 0 then chains - {first} else chains[first := chains[first][..keep]])
  {
    hide IsChain;
    var cs := chains[first];
    var after := if keep == 0 then chains - {first} else chains[first := cs[..keep]];
    forall f | f in after ensures IsChain(out, total, after[f]) && after[f] != [] && after[f][0] == f {
      if f == first {
        CutChain(fat, out, total, cs, keep);
      } else {
        assert Apart(chains[f], cs);
        ChainNonempty(fat, total, chains[f]);
        ChainFrame(fat, out, total, chains[f]);
      }
    }
    forall f, g | f in after && g in after && f != g ensures Apart(after[f], after[g]) {
      assert Apart(chains[f], chains[g]);
    }
  }

  lemma CutChain(fat: seq<nat>, out: seq<nat>, total: nat, cs: seq<nat>, keep: nat)
    requires |fat| > 1 + total && IsChain(fat, total, cs) && 0 < keep <= |cs| && CutTo(fat, out, cs, keep)
    ensures IsChain(out, total, cs[..keep]) && cs[..keep][0] == cs[0]
  {
    ChainTruncate(fat, out, total, cs, keep);
  }

  lemma ChainNonempty(fat: seq<nat>, total: nat, cs: seq<nat>)
    requires |fat| > 1 + total && IsChain(fat, total, cs)
    ensures cs != [] && forall i :: 0 <= i < |cs| ==> cs[i] < |fat|
  {
    forall i | 0 <= i < |cs| ensures cs[i] < |fat| {
      assert Cluster(total, cs[i]);
    }
  }

  lemma CutDone(fat: seq<nat>, gat: seq<nat>, total: nat, chains: map<nat, seq<nat>>, first: nat, keep: nat)
    requires |fat| > 1 + total && Inside(fat) && ChainsOk(fat, total, chains) && first in chains && keep <= |chains[first]|
    requires Cut(fat, gat, chains[first], keep, |chains[first]|)
    ensures |gat| == |fat| && (0 < keep ==> chains[first][keep - 1] < |gat|)
    ensures var cs := chains[first]; var out: seq<nat> := if keep > 0 then gat[cs[keep - 1] := EOC] else gat;
      && Inside(out)
      && ChainsOk(out, total, if keep == 0 then chains - {first} else chains[first := cs[..keep]])
      && Free(out, total) == Free(fat, total) + Elements(cs[keep..])
      && (forall c :: 0 <= c < |fat| && c !in cs ==> out[c] == fat[c])
  {
    var cs := chains[first];
    assert IsChain(fat, total, cs);
    ChainNonempty(fat, total, cs);
    var out: seq<nat> := if keep > 0 then gat[cs[keep - 1] := EOC] else gat;
    assert CutTo(fat, out, cs, keep);
    hide IsChain, ChainsOk, Inside, Free, Cut;
    CutInside(fat, out, cs, keep);
    CutFree(fat, out, total, cs, keep);
    CutChains(fat, out, total, chains, first, keep);
  }

  /** The table after the clusters of places keep..done of a chain were zeroed. */
  ghost predicate Cut(fat: seq<nat>, gat: seq<nat>, cs: seq<nat>, keep: nat, done: nat)
    requires done <= |cs|
  {
    && |gat| == |fat|
    && (forall i :: keep <= i < done ==> cs[i] < |gat| && gat[cs[i]] == 0)
    && (forall c :: 0 <= c < |fat| && (forall i :: keep <= i < done ==> cs[i] != c) ==> gat[c] == fat[c])
  }
}
