/**
 A directory together with the table its files' chains are threaded through: deleting a file
 frees its slots and its clusters, and runs of creates, renames and deletes keep both in step.
 */
module FatVolume {
  import opened Bytes
  import opened Fs
  import opened FatSlots
  import opened FatShort
  import opened FatDirectory
  import opened FatFolder
  import opened FatChain

  function ClusterOf(dir: seq<Slot>, i: nat): nat {
    if i < |dir| then EntryAt(dir, i).cluster else 0
  }

  /** Every entry owns a chain of the table or no cluster at all, and no two entries own the same chain. */
  ghost predicate Owns(dir: seq<Slot>, chains: map<nat, seq<nat>>) {
    && (forall i: nat :: Live(dir, i) && ClusterOf(dir, i) != 0 ==> ClusterOf(dir, i) in chains)
    && (forall i: nat, j: nat :: Live(dir, i) && Live(dir, j) && i != j && ClusterOf(dir, i) != 0 ==> ClusterOf(dir, i) != ClusterOf(dir, j))
  }

  /** The entry at `gone` leaves with its chain. */
  lemma OwnsWithout(dir: seq<Slot>, out: seq<Slot>, chains: map<nat, seq<nat>>, gone: nat)
    requires Owns(dir, chains) && Dropped(dir, out, gone) && Live(dir, gone)
    ensures Owns(out, chains - {ClusterOf(dir, gone)}) && (ClusterOf(dir, gone) == 0 ==> Owns(out, chains))
  {
    hide Live, EntryOf, RunAt;
    LiveInside(dir, out);
    assert forall i: nat :: Live(out, i) ==> Live(dir, i) && i != gone && ClusterOf(out, i) == ClusterOf(dir, i);
  }

  /** An entry that owns nothing joins. */
  lemma OwnsWith(dir: seq<Slot>, out: seq<Slot>, chains: map<nat, seq<nat>>, at: nat)
    requires Owns(dir, chains) && Replaced(dir, out, None, at) && ClusterOf(out, at) == 0
    ensures Owns(out, chains)
  {
    hide Live, EntryOf, RunAt;
    LiveInside(dir, out);
    assert forall i: nat :: Live(out, i) && i != at ==> Live(dir, i) && ClusterOf(out, i) == ClusterOf(dir, i);
  }

  /** An entry moves and keeps its chain. */
  lemma OwnsMoved(dir: seq<Slot>, out: seq<Slot>, chains: map<nat, seq<nat>>, was: nat, at: nat)
    requires Owns(dir, chains) && Live(dir, was) && Replaced(dir, out, Some(was), at) && ClusterOf(out, at) == ClusterOf(dir, was)
    ensures Owns(out, chains)
  {
    hide Live, EntryOf, RunAt;
    LiveInside(dir, out);
    assert forall i: nat :: Live(out, i) && i != at ==> Live(dir, i) && i != was && ClusterOf(out, i) == ClusterOf(dir, i);
  }

  /**
   Delete a file: its entry leaves the listing, its whole chain becomes free, and every other
   entry and chain stays.
   */
  method Delete(dir: Folder, table: FatTable, name: Name) returns (r: Result<nat>)
    requires dir.Valid() && table.Valid() && Owns(dir.slots, table.chains)
    modifies dir`slots, table
    ensures dir.Valid() && table.Valid() && Owns(dir.slots, table.chains) && (Tight(old(dir.slots)) ==> Tight(dir.slots))
    ensures r.Err? <==> Find(old(dir.slots), name) == None || EntryAt(old(dir.slots), Find(old(dir.slots), name).value).isDir
    ensures r.Err? ==> dir.slots == old(dir.slots) && table.fats == old(table.fats) && table.chains == old(table.chains)
    ensures r.Ok? ==> Find(old(dir.slots), name) == Some(r.value) && Dropped(old(dir.slots), dir.slots, r.value)
    ensures |dir.slots| == |old(dir.slots)|
    ensures r.Ok? ==> 0 < |old(table.fats)| == |table.fats| && |table.fats[0]| == |old(table.fats)[0]| > 1 + table.total
    ensures r.Ok? ==> var c := ClusterOf(old(dir.slots), r.value);
      if c == 0 then table.fats == old(table.fats) && table.chains == old(table.chains)
      else
        && c in old(table.chains) && table.chains == old(table.chains) - {c}
        && Free(table.fats[0], table.total) == Free(old(table.fats)[0], table.total) + Elements(old(table.chains)[c])
  {
    hide EntryOf, Live, Find, Dropped, Owns, WellFormed, RunAt, Tight, Removed, ClusterStart, Free, ChainsOk, Inside;
    ghost var was := dir.slots;
    FoundLive(was, name);
    var at := dir.Lookup(name);
    var c := if at.Some? then ClusterOf(dir.slots, at.value) else 0;
    r := dir.Unlink(name);
    if r.Err? { return; }
    OwnsWithout(was, dir.slots, table.chains, r.value);
    if c != 0 {
      Owned(was, table.chains, r.value);
      ghost var cs := table.chains[c];
      table.FreeFrom(c, 0);
      assert cs[0..] == cs;
    }
  }

  lemma FoundLive(dir: seq<Slot>, name: Name)
    ensures Find(dir, name).Some? ==> Live(dir, Find(dir, name).value)
  {
    hide EntryOf, Find, Live;
    FindMeans(dir, name);
  }

  lemma Owned(dir: seq<Slot>, chains: map<nat, seq<nat>>, i: nat)
    requires Owns(dir, chains) && Live(dir, i) && ClusterOf(dir, i) != 0
    ensures ClusterOf(dir, i) in chains
  {
  }

  // ---- runs ----

  datatype Op =
    | Create(name: Name, t: Stamps)
    | Rename(from: Name, to: Name, t: Stamps)
    | Remove(name: Name)

  /** The names an operation brings can be stored in a cluster of `per` slots. */
  predicate OpOk(op: Op, per: nat) {
    match op
    case Create(name, t) => |name| <= 403 && LongCount(name) < per && StampsOk(t)
    case Rename(_, to, t) => |to| <= 403 && LongCount(to) < per && StampsOk(t)
    case Remove(_) => true
  }

  /** The clusters of some of the chains. */
  ghost function Clusters(chains: map<nat, seq<nat>>, keys: set<nat>): set<nat> {
    set c, x | c in keys && c in chains && x in chains[c] :: x
  }

  /** Whole chains went, and their clusters are what became free. */
  ghost predicate Freed(was: map<nat, seq<nat>>, free: set<nat>, now: map<nat, seq<nat>>, free': set<nat>) {
    && now.Keys <= was.Keys && (forall c :: c in now ==> now[c] == was[c])
    && free' == free + Clusters(was, was.Keys - now.Keys)
  }

  lemma NoneFreed(chains: map<nat, seq<nat>>, free: set<nat>)
    ensures Freed(chains, free, chains, free)
  {
    assert chains.Keys - chains.Keys == {};
  }

  lemma OneMoreFreed(was: map<nat, seq<nat>>, free: set<nat>, now: map<nat, seq<nat>>, free': set<nat>, c: nat)
    requires Freed(was, free, now, free') && c in now
    ensures Freed(was, free, now - {c}, free' + Elements(now[c]))
  {
    assert was.Keys - (now - {c}).Keys == was.Keys - now.Keys + {c};
    assert Clusters(was, was.Keys - now.Keys + {c}) == Clusters(was, was.Keys - now.Keys) + Elements(was[c]);
  }

  /** What holds of a directory of one cluster and its table between operations. */
  ghost predicate Settled(dir: Folder, table: FatTable)
    reads dir, table
  {
    dir.Valid() && table.Valid() && Owns(dir.slots, table.chains) && Tight(dir.slots) && |dir.slots| == dir.per
  }

  method PerformCreate(dir: Folder, table: FatTable, name: Name, t: Stamps) returns (r: Result<nat>)
    requires Settled(dir, table) && OpOk(Create(name, t), dir.per)
    modifies dir`slots
    ensures Settled(dir, table)
    ensures r.Err? ==> dir.slots == old(dir.slots)
    ensures r.Ok? ==> Replaced(old(dir.slots), dir.slots, None, r.value) && NamedAt(dir.slots, r.value, name, 0, 0, false)
  {
    hide EntryOf, Live, Find, Owns, WellFormed, RunAt, Tight, Free, ChainsOk, Inside, Lies, Joined, Alone, NamedAt, Replaced, Carries, Entered, LongCount,
         AliasesDistinct, DotClash, GrownBlank, NoPlace, LeadsOn;
    ghost var was := dir.slots;
    var at := dir.Lookup(name);
    if at.Some? { return Err(Exists); }
    r := dir.CreateEntry(name, 0, false, t, None);
    if r.Err? { return; }
    NotGrown(was, dir.slots, dir.per, r.value, LongCount(name));
    JoinsAlone(was, dir.slots, r.value, name);
    CarriesCluster(dir.slots, r.value, name, 0, 0, false);
    OwnsWith(was, dir.slots, table.chains, r.value);
  }

  method PerformRename(dir: Folder, table: FatTable, from: Name, to: Name, t: Stamps) returns (r: Result<nat>)
    requires Settled(dir, table) && OpOk(Rename(from, to, t), dir.per)
    modifies dir`slots
    ensures Settled(dir, table)
    ensures r.Err? ==> dir.slots == old(dir.slots)
    ensures r.Ok? ==> Find(old(dir.slots), from).Some? && var was := Find(old(dir.slots), from).value;
      if Find(old(dir.slots), to) == Some(was) then dir.slots == old(dir.slots)
      else
        && Replaced(old(dir.slots), dir.slots, Some(was), r.value)
        && var e := EntryAt(old(dir.slots), was); NamedAt(dir.slots, r.value, to, e.cluster, e.size, e.isDir)
  {
    hide EntryOf, Live, Find, Owns, WellFormed, RunAt, Tight, Free, ChainsOk, Inside, Lies, Renamed, Relocated, Alone, NamedAt, Replaced, Carries, LongCount,
         GrownBlank, NoPlace, LeadsOn;
    ghost var dir0 := dir.slots;
    FoundLive(dir0, from);
    r := dir.Rename(from, to, t, None);
    if r.Err? { return; }
    ghost var was := Find(dir0, from).value;
    if Find(dir0, to) != Some(was) {
      NotGrown(dir0, dir.slots, dir.per, r.value, LongCount(to));
      MovesAlone(dir0, dir.slots, was, r.value, to);
      OwnsMoved(dir0, dir.slots, table.chains, was, r.value);
    }
  }

  method PerformRemove(dir: Folder, table: FatTable, name: Name) returns (r: Result<nat>)
    requires Settled(dir, table)
    modifies dir`slots, table
    ensures Settled(dir, table) && |table.fats| == |old(table.fats)|
    ensures r.Err? ==> dir.slots == old(dir.slots) && table.fats == old(table.fats) && table.chains == old(table.chains)
    ensures r.Ok? ==> Find(old(dir.slots), name) == Some(r.value) && Dropped(old(dir.slots), dir.slots, r.value)
    ensures Freed(old(table.chains), Free(old(table.fats)[0], table.total), table.chains, Free(table.fats[0], table.total))
  {
    hide EntryOf, Live, Find, Owns, WellFormed, RunAt, Tight, Free, ChainsOk, Inside, Dropped, Freed, Elements;
    ghost var chains, free := table.chains, Free(table.fats[0], table.total);
    NoneFreed(chains, free);
    ghost var slots := dir.slots;
    r := Delete(dir, table, name);
    if r.Ok? && ClusterOf(slots, r.value) != 0 { OneMoreFreed(chains, free, chains, free, ClusterOf(slots, r.value)); }
  }

  lemma NotGrown(dir: seq<Slot>, out: seq<Slot>, per: nat, at: nat, longs: nat)
    requires Lies(dir, out, per, at, longs, None)
    ensures |out| == |dir|
  {
  }

  lemma JoinsAlone(dir: seq<Slot>, out: seq<Slot>, at: nat, name: Name)
    requires Joined(dir, out, at, name, None) && Alone(dir, at, LongCount(name), None)
    ensures Replaced(dir, out, None, at)
  {
    hide Alone, Replaced, Kept, SameListing, Live, EndBefore, LongCount;
  }

  lemma MovesAlone(dir: seq<Slot>, out: seq<Slot>, was: nat, at: nat, to: Name)
    requires was < |dir| && Renamed(dir, out, was, at, to, None) && Alone(dir, at, LongCount(to), None)
    ensures Replaced(dir, out, Some(was), at) && ClusterOf(out, at) == ClusterOf(dir, was)
    ensures var e := EntryAt(dir, was); NamedAt(out, at, to, e.cluster, e.size, e.isDir)
  {
    hide Alone, Replaced, Live, EndBefore, LongCount, NamedAt, AliasesDistinct, DotClash, Dropped, EntryOf, RunAt, Storable, Trim, Stored;
  }

  lemma CarriesCluster(dir: seq<Slot>, at: nat, name: Name, cluster: nat, size: nat, isDir: bool)
    requires Carries(dir, at, name, cluster, size, isDir)
    ensures ClusterOf(dir, at) == cluster
  {
    hide EntryOf, RunAt, Storable, Trim, Stored;
  }

  /** One operation; one that is refused changes nothing. */
  method Perform(dir: Folder, table: FatTable, op: Op) returns (r: Result<nat>)
    requires Settled(dir, table) && OpOk(op, dir.per)
    modifies dir`slots, table
    ensures Settled(dir, table) && |table.fats| == |old(table.fats)|
    ensures r.Err? ==> dir.slots == old(dir.slots) && table.fats == old(table.fats) && table.chains == old(table.chains)
    ensures r.Ok? && op.Create? ==> Replaced(old(dir.slots), dir.slots, None, r.value) && NamedAt(dir.slots, r.value, op.name, 0, 0, false)
    ensures r.Ok? && op.Rename? ==> Find(old(dir.slots), op.from).Some? && var was := Find(old(dir.slots), op.from).value;
      if Find(old(dir.slots), op.to) == Some(was) then dir.slots == old(dir.slots)
      else
        && Replaced(old(dir.slots), dir.slots, Some(was), r.value)
        && var e := EntryAt(old(dir.slots), was); NamedAt(dir.slots, r.value, op.to, e.cluster, e.size, e.isDir)
    ensures r.Ok? && op.Remove? ==> Find(old(dir.slots), op.name) == Some(r.value) && Dropped(old(dir.slots), dir.slots, r.value)
    ensures !op.Remove? ==> table.fats == old(table.fats) && table.chains == old(table.chains)
    ensures Freed(old(table.chains), Free(old(table.fats)[0], table.total), table.chains, Free(table.fats[0], table.total))
  {
    match op
    case Create(name, t) => r := PerformCreate(dir, table, name, t);
    case Rename(from, to, t) => r := PerformRename(dir, table, from, to, t);
    case Remove(name) => r := PerformRemove(dir, table, name);
  }

  /**
   Any run of operations on a directory of one cluster with nothing behind its end marker: it
   stays so, every entry keeps its chain to itself, and the clusters that become free are those
   of whole chains, each of them a chain that no entry owns any more.
   */
  method Session(dir: Folder, table: FatTable, ops: seq<Op>)
    requires Settled(dir, table) && forall k :: 0 <= k < |ops| ==> OpOk(ops[k], dir.per)
    modifies dir`slots, table
    ensures Settled(dir, table) && |table.fats| == |old(table.fats)|
    ensures Freed(old(table.chains), Free(old(table.fats)[0], table.total), table.chains, Free(table.fats[0], table.total))
  {
    hide Free, Freed, OpOk;
    ghost var chains, free := table.chains, Free(table.fats[0], table.total);
    NoneFreed(chains, free);
    for k := 0 to |ops|
      invariant Settled(dir, table) && |table.fats| == |old(table.fats)|
      invariant Freed(chains, free, table.chains, Free(table.fats[0], table.total))
    {
      ghost var mid, left := table.chains, Free(table.fats[0], table.total);
      var r := Perform(dir, table, ops[k]);
      FreedTrans(chains, free, mid, left, table.chains, Free(table.fats[0], table.total));
    }
  }

  lemma FreedTrans(a: map<nat, seq<nat>>, free: set<nat>, b: map<nat, seq<nat>>, free': set<nat>, c: map<nat, seq<nat>>, free'': set<nat>)
    requires Freed(a, free, b, free') && Freed(b, free', c, free'')
    ensures Freed(a, free, c, free'')
  {
    var x, y, z := a.Keys - b.Keys, b.Keys - c.Keys, a.Keys - c.Keys;
    assert z == x + y;
    assert Clusters(a, z) == Clusters(a, x) + Clusters(b, y);
  }
}
