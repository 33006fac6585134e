/**
 Short names: the eleven bytes of an 8.3 name, the test for names that need more, and the
 numbered aliases that long names get.
 */
module FatShort {
  import opened Bytes
  import opened Fs
  import opened FatSlots

  const SPACE: nat := 32
  const DOT: nat := 46
  const TILDE: nat := 126

  predicate Alnum(c: nat) {
    48 <= c <= 57 || 65 <= c <= 90 || 97 <= c <= 122
  }

  /** Characters a short name may hold before its dot. */
  predicate Plain(c: nat) {
    Alnum(c) || c == 95 || c == 45 || c == TILDE
  }

  function Upper(c: nat): nat {
    if 97 <= c <= 122 then c - 32 else c
  }

  function Lower(c: nat): nat {
    if 65 <= c <= 90 then c + 32 else c
  }

  function UpperAll(s: Name): (r: Name)
    ensures |r| == |s| && forall i :: 0 <= i < |s| ==> r[i] == Upper(s[i])
  {
    seq(|s|, i requires 0 <= i < |s| => Upper(s[i]))
  }

  /** Equal up to the case of ASCII letters. */
  predicate EqFold(a: Name, b: Name) {
    |a| == |b| && forall i :: 0 <= i < |a| ==> Lower(a[i]) == Lower(b[i])
  }

  lemma UpperFolds(a: Name)
    ensures EqFold(UpperAll(a), a) && EqFold(a, UpperAll(a)) && EqFold(a, a)
  {
  }

  lemma FoldTrans(a: Name, b: Name, c: Name)
    requires EqFold(a, b) && EqFold(b, c)
    ensures EqFold(a, c) && EqFold(c, a)
  {
  }

  /** Trailing spaces and dots are not part of a name. */
  function Trim(name: Name): (r: Name)
    ensures |r| <= |name| && r == name[..|r|]
    ensures r == name <==> name == [] || (name[|name| - 1] != SPACE && name[|name| - 1] != DOT)
  {
    if name != [] && (name[|name| - 1] == SPACE || name[|name| - 1] == DOT) then Trim(name[..|name| - 1]) else name
  }

  /** Folding keeps what the format can hold and where a name ends. */
  lemma FoldKeeps(a: Name, b: Name)
    requires EqFold(a, b)
    ensures Storable(a) ==> Storable(b)
    ensures Trim(a) == a ==> Trim(b) == b
  {
    forall i | Storable(a) && 0 <= i < |b| ensures 0 < b[i] < 0xFFFF && !Surrogate(b[i]) {
      assert Lower(a[i]) == Lower(b[i]);
    }
    if a != [] {
      assert Lower(a[|a| - 1]) == Lower(b[|b| - 1]);
    }
  }

  /** A short name holds nothing the long format could not hold, and ends in no dot or space. */
  predicate Tidy(s: Name) {
    Storable(s) && Trim(s) == s
  }

  // ---- splitting at the last dot ----

  function LastDot(s: Name, n: nat): (r: int)
    requires n <= |s|
    ensures -1 <= r < n && (r >= 0 ==> s[r] == DOT)
    ensures forall i :: r < i < n ==> s[i] != DOT
  {
    if n == 0 then -1 else if s[n - 1] == DOT then n - 1 else LastDot(s, n - 1)
  }

  function SplitName(s: Name): (r: (Name, Name)) {
    var d := LastDot(s, |s|);
    if d > 0 then (s[..d], s[d + 1..]) else (s, [])
  }

  predicate NoDot(s: Name) {
    forall i :: 0 <= i < |s| ==> s[i] != DOT
  }

  /** How a short name is put together again. */
  function Join(base: Name, ext: Name): Name {
    if ext == [] then base else base + [DOT] + ext
  }

  lemma SplitJoin(base: Name, ext: Name)
    requires base != [] && NoDot(base) && NoDot(ext)
    ensures SplitName(Join(base, ext)) == (base, ext)
  {
    var s := Join(base, ext);
    if ext != [] {
      assert s[|base|] == DOT;
      assert forall i :: |base| < i < |s| ==> s[i] == ext[i - |base| - 1];
      assert LastDot(s, |s|) == |base|;
      assert s[..|base|] == base && s[|base| + 1..] == ext;
    } else {
      assert LastDot(s, |s|) == -1;
    }
  }

  lemma JoinSplit(s: Name)
    requires s != [] && s[|s| - 1] != DOT && NoDot(SplitName(s).0)
    ensures var (base, ext) := SplitName(s); Join(base, ext) == s
  {
  }

  // ---- the 8.3 form ----

  function MakeShort(name: Name): (r: Result<seq<byte>>)
    ensures r.Ok? ==> |r.value| == 11
    ensures r.Err? ==> r.error == NotSupported
  {
    var (base, ext) := SplitName(name);
    if 47 in name || 92 in name then Err(NotSupported)
    else if base == [] || |base| > 8 || |ext| > 3 || |name| > 12 then Err(NotSupported)
    else if exists i :: 0 <= i < |base| && !Plain(base[i]) then Err(NotSupported)
    else if exists i :: 0 <= i < |ext| && !Alnum(ext[i]) then Err(NotSupported)
    else Ok(Packed(base, ext))
  }

  function Packed(base: Name, ext: Name): (r: seq<byte>)
    requires |base| <= 8 && |ext| <= 3
    requires (forall i :: 0 <= i < |base| ==> Plain(base[i])) && (forall i :: 0 <= i < |ext| ==> Alnum(ext[i]))
    ensures |r| == 11
    ensures forall i :: 0 <= i < 8 ==> r[i] == if i < |base| then Upper(base[i]) else SPACE
    ensures forall i :: 0 <= i < 3 ==> r[8 + i] == if i < |ext| then Upper(ext[i]) else SPACE
  {
    seq<byte>(11, i requires 0 <= i < 11 => PackedByte(base, ext, i))
  }

  function PackedByte(base: Name, ext: Name, i: nat): byte
    requires |base| <= 8 && |ext| <= 3
    requires (forall k :: 0 <= k < |base| ==> Plain(base[k])) && (forall k :: 0 <= k < |ext| ==> Alnum(ext[k]))
  {
    if i < |base| then assert Plain(base[i]); Upper(base[i])
    else if 8 <= i && i - 8 < |ext| then assert Alnum(ext[i - 8]); Upper(ext[i - 8])
    else SPACE
  }

  /** The characters before the first space, in lower case when the entry says so. */
  function Field(s: seq<byte>, lower: bool): (r: Name) {
    if s == [] || s[0] == SPACE then []
    else [if lower then Lower(s[0]) else s[0]] + Field(s[1..], lower)
  }

  function ShortName(slot: Slot): Name {
    var first := if slot[0] == 0x05 then 0xE5 else slot[0];
    var base := Field([first] + slot[1..8], (slot[12] / 8) % 2 == 1);
    if slot[8] == SPACE && slot[9] == SPACE && slot[10] == SPACE then base
    else base + [DOT] + Field(slot[8..11], (slot[12] / 16) % 2 == 1)
  }

  lemma {:induction false} FieldIs(s: seq<byte>, chars: Name)
    requires |chars| <= |s| && (forall i :: 0 <= i < |chars| ==> s[i] == chars[i] && s[i] != SPACE)
    requires |chars| < |s| ==> s[|chars|] == SPACE
    ensures Field(s, false) == chars
    decreases |chars|
  {
    if chars != [] {
      FieldIs(s[1..], chars[1..]);
    }
  }

  /** The fields of a slot that carries a packed name read back in upper case. */
  lemma PackedReadsBack(base: Name, ext: Name, slot: Slot)
    requires 0 < |base| <= 8 && |ext| <= 3
    requires (forall i :: 0 <= i < |base| ==> Plain(base[i])) && (forall i :: 0 <= i < |ext| ==> Alnum(ext[i]))
    requires slot[..11] == Packed(base, ext) && slot[12] == 0
    ensures ShortName(slot) == Join(UpperAll(base), UpperAll(ext))
  {
    var p := Packed(base, ext);
    assert forall i :: 0 <= i < 11 ==> slot[i] == p[i];
    assert slot[0] == Upper(base[0]) != 0x05;
    FieldIs([slot[0]] + slot[1..8], UpperAll(base));
    FieldIs(slot[8..11], UpperAll(ext));
    if ext != [] {
      assert slot[8] == Upper(ext[0]) != SPACE;
    }
  }

  /** An 8.3 name survives in upper case, less the final dot that the format drops. */
  lemma ShortRoundTrip(name: Name, slot: Slot)
    requires MakeShort(name).Ok? && slot[..11] == MakeShort(name).value && slot[12] == 0
    ensures name != [] && ShortName(slot) == UpperAll(Trim(name)) && Tidy(ShortName(slot))
    ensures Trim(name) == (if name[|name| - 1] == DOT then name[..|name| - 1] else name)
    ensures ShortName(slot) == UpperAll(name) <==> name[|name| - 1] != DOT
    ensures slot[0] != 0 && slot[0] != 0xE5
  {
    hide Packed, ShortName, Trim, Join, SplitName, Tidy, EqFold, MakeShort, Plain, Alnum;
    var (base, ext) := SplitName(name);
    ShortParts(name);
    ShortPacked(name);
    PackedReadsBack(base, ext, slot);
    assert slot[0] == slot[..11][0];
    TrimShort(name);
    JoinTrim(name);
    JoinUpper(base, ext);
    JoinTidy(base, ext);
  }

  /** The only dot or space a short name can end in is one dot. */
  lemma TrimShort(name: Name)
    requires MakeShort(name).Ok?
    ensures name != [] && Trim(name) == (if name[|name| - 1] == DOT then name[..|name| - 1] else name)
  {
    hide MakeShort, SplitName, Trim, Plain, Alnum;
    var (base, ext) := SplitName(name);
    ShortParts(name);
    if name == base + [DOT] {
      TrimDot(name, base);
    } else {
      TrimNone(name, base, ext);
    }
  }

  /** The parts of a short name, and how the name is made of them. */
  lemma ShortParts(name: Name)
    requires MakeShort(name).Ok?
    ensures var (base, ext) := SplitName(name);
      && base != [] && (forall i :: 0 <= i < |base| ==> Plain(base[i])) && (forall i :: 0 <= i < |ext| ==> Alnum(ext[i]))
      && (name == base || name == base + [DOT] + ext)
    ensures name != [] && (name[|name| - 1] == DOT <==> name == SplitName(name).0 + [DOT])
  {
    hide Packed, Alnum;
    var (base, ext) := SplitName(name);
    PlainNoDot(base);
    assert name == base || name == base + [DOT] + ext by { SplitShape(name); }
    if name != base && ext != [] {
      LastUnit(base + [DOT], ext);
    }
  }

  lemma ShortPacked(name: Name)
    requires MakeShort(name).Ok?
    ensures var (base, ext) := SplitName(name);
      && 0 < |base| <= 8 && |ext| <= 3
      && (forall i :: 0 <= i < |base| ==> Plain(base[i])) && (forall i :: 0 <= i < |ext| ==> Alnum(ext[i]))
      && MakeShort(name).value == Packed(base, ext) && MakeShort(name).value[0] == Upper(base[0]) && Upper(base[0]) > 5 && Upper(base[0]) < 128
  {
    hide SplitName;
    assert Plain(SplitName(name).0[0]);
  }

  lemma SplitShape(s: Name)
    ensures var (base, ext) := SplitName(s); s == base || s == base + [DOT] + ext
  {
  }

  lemma LastUnit(a: Name, ext: Name)
    requires ext != [] && forall i :: 0 <= i < |ext| ==> Alnum(ext[i])
    ensures (a + ext)[|a + ext| - 1] != DOT && a + ext != a
  {
    assert (a + ext)[|a + ext| - 1] == ext[|ext| - 1];
    assert |a + ext| > |a|;
  }

  lemma TrimDot(name: Name, base: Name)
    requires base != [] && (forall i :: 0 <= i < |base| ==> Plain(base[i])) && name == base + [DOT]
    ensures Trim(name) == name[..|name| - 1]
  {
    assert name[..|name| - 1] == base;
    assert Plain(base[|base| - 1]);
    assert Trim(base) == base;
  }

  lemma TrimNone(name: Name, base: Name, ext: Name)
    requires base != [] && (name == base || name == base + [DOT] + ext) && name != base + [DOT]
    requires (forall i :: 0 <= i < |base| ==> Plain(base[i])) && (forall i :: 0 <= i < |ext| ==> Alnum(ext[i]))
    ensures Trim(name) == name
  {
    hide Trim;
    var last := name[|name| - 1];
    assert Plain(last) by {
      if name == base {
        assert last == base[|base| - 1];
      } else {
        assert ext == [] ==> base + [DOT] + ext == base + [DOT];
        assert last == ext[|ext| - 1];
      }
    }
  }

  lemma JoinTrim(name: Name)
    requires MakeShort(name).Ok?
    ensures Join(SplitName(name).0, SplitName(name).1) == Trim(name)
  {
    hide Packed, Trim, Plain, Alnum;
    TrimShort(name);
    PlainNoDot(SplitName(name).0);
    if name[|name| - 1] != DOT { JoinSplit(name); }
  }

  /** In upper case, a base and an extension make a tidy name. */
  lemma JoinTidy(base: Name, ext: Name)
    requires base != []
    requires (forall i :: 0 <= i < |base| ==> Plain(base[i])) && (forall i :: 0 <= i < |ext| ==> Alnum(ext[i]))
    ensures Tidy(UpperAll(Join(base, ext)))
  {
    var s := UpperAll(Join(base, ext));
    forall i | 0 <= i < |s| ensures 0 < s[i] < 127 && (i == |s| - 1 ==> s[i] != SPACE && s[i] != DOT) {
      if i < |base| {
        assert s[i] == Upper(base[i]);
      } else if i > |base| {
        assert s[i] == Upper(ext[i - |base| - 1]);
      }
    }
  }

  lemma PlainNoDot(s: Name)
    requires forall i :: 0 <= i < |s| ==> Plain(s[i])
    ensures NoDot(s)
  {
  }

  lemma JoinUpper(base: Name, ext: Name)
    ensures Join(UpperAll(base), UpperAll(ext)) == UpperAll(Join(base, ext))
  {
  }

  // ---- aliases ----

  function Keep(s: Name, stem: bool): (r: Name)
    ensures |r| <= |s| && forall i :: 0 <= i < |r| ==> Plain(r[i]) && (!stem ==> Alnum(r[i]))
  {
    if s == [] then []
    else (if (stem && Plain(s[0])) || Alnum(s[0]) then [s[0]] else []) + Keep(s[1..], stem)
  }

  function Take(s: Name, n: nat): (r: Name)
    ensures |r| <= n && |r| <= |s| && forall i :: 0 <= i < |r| ==> r[i] == s[i]
  {
    if |s| <= n then s else s[..n]
  }

  function Stem(name: Name): (r: Name)
    ensures 1 <= |r| <= 6 && forall i :: 0 <= i < |r| ==> Plain(r[i])
  {
    var s := Take(Keep(SplitName(name).0, true), 6);
    if s == [] then [70, 73, 76, 69] else s
  }

  function Extension(name: Name): (r: Name)
    ensures |r| <= 3 && forall i :: 0 <= i < |r| ==> Alnum(r[i])
  {
    Take(Keep(SplitName(name).1, false), 3)
  }

  function Digits(n: nat): (r: Name)
    requires 1 <= n < 100
    ensures |r| == (if n < 10 then 1 else 2) && forall i :: 0 <= i < |r| ==> 48 <= r[i] <= 57
  {
    if n < 10 then [48 + n] else [48 + n / 10, 48 + n % 10]
  }

  function Candidate(name: Name, n: nat): Name
    requires 1 <= n < 100
  {
    Join(Stem(name) + [TILDE] + Digits(n), Extension(name))
  }

  predicate TakenBy(taken: seq<Name>, cand: Name) {
    exists i :: 0 <= i < |taken| && EqFold(taken[i], cand)
  }

  /** The first numbered alias nobody has. */
  function UniqueFrom(name: Name, taken: seq<Name>, n: nat): (r: Result<seq<byte>>)
    requires 1 <= n <= 100
    ensures r.Ok? ==> |r.value| == 11
    ensures r.Err? ==> r.error in {NotSupported, NoSpace}
    decreases 100 - n
  {
    if n == 100 then Err(NoSpace)
    else if TakenBy(taken, Candidate(name, n)) then UniqueFrom(name, taken, n + 1)
    else MakeShort(Candidate(name, n))
  }

  method MakeUniqueShort(name: Name, taken: seq<Name>) returns (r: Result<seq<byte>>)
    ensures r == UniqueFrom(name, taken, 1)
  {
    var n := 1;
    while n < 100
      invariant 1 <= n <= 100 && UniqueFrom(name, taken, n) == UniqueFrom(name, taken, 1)
    {
      var cand := Candidate(name, n);
      if !TakenBy(taken, cand) {
        return MakeShort(cand);
      }
      n := n + 1;
    }
    return Err(NoSpace);
  }

  lemma CandidateSplit(name: Name, n: nat)
    requires 1 <= n < 100
    ensures SplitName(Candidate(name, n)) == (Stem(name) + [TILDE] + Digits(n), Extension(name))
    ensures forall i :: 0 <= i < |Stem(name) + [TILDE] + Digits(n)| ==> Plain((Stem(name) + [TILDE] + Digits(n))[i])
    ensures Candidate(name, n)[|Candidate(name, n)| - 1] != DOT
  {
    var base := Stem(name) + [TILDE] + Digits(n);
    PlainNoDot(base);
    SplitJoin(base, Extension(name));
  }

  lemma JoinLegal(base: Name, ext: Name)
    requires base != [] && |ext| <= 3
    requires (forall i :: 0 <= i < |base| ==> Plain(base[i])) && (forall i :: 0 <= i < |ext| ==> Alnum(ext[i]))
    ensures MakeShort(Join(base, ext)).Ok? <==> |base| <= 8
  {
    hide Packed, SplitName;
    PlainNoDot(base);
    SplitJoin(base, ext);
    var name := Join(base, ext);
    forall i | 0 <= i < |name| ensures name[i] != 47 && name[i] != 92 {
      if i < |base| {
        assert name[i] == base[i];
      } else if i > |base| {
        assert name[i] == ext[i - |base| - 1];
      }
    }
  }

  /** A candidate is a legal short name exactly when its number still fits behind the stem. */
  lemma CandidateLegal(name: Name, n: nat)
    requires 1 <= n < 100
    ensures MakeShort(Candidate(name, n)).Ok? <==> n < 10 || |Stem(name)| < 6
  {
    hide MakeShort, Stem, Extension, Digits, SplitName;
    CandidateSplit(name, n);
    JoinLegal(Stem(name) + [TILDE] + Digits(n), Extension(name));
  }

  /** An alias that is found names nobody else in the directory. */
  lemma {:induction false} UniqueIsFresh(name: Name, taken: seq<Name>, n: nat, slot: Slot)
    requires 1 <= n <= 100 && UniqueFrom(name, taken, n).Ok?
    requires slot[..11] == UniqueFrom(name, taken, n).value && slot[12] == 0
    ensures !TakenBy(taken, ShortName(slot)) && Tidy(ShortName(slot)) && slot[0] != 0 && slot[0] != 0xE5
    decreases 100 - n
  {
    var cand := Candidate(name, n);
    if TakenBy(taken, cand) {
      UniqueIsFresh(name, taken, n + 1, slot);
    } else {
      CandidateSplit(name, n);
      ShortRoundTrip(cand, slot);
      UpperFolds(cand);
      forall i | 0 <= i < |taken| ensures !EqFold(taken[i], ShortName(slot)) {
        if EqFold(taken[i], ShortName(slot)) {
          FoldTrans(taken[i], ShortName(slot), cand);
          assert false;
        }
      }
    }
  }

  /** Names that do not fit the 8.3 form get long slots. */
  predicate NeedsLong(name: Name) {
    var (base, ext) := SplitName(name);
    || |base| > 8 || |ext| > 3 || base == [] || |name| > 12
    || exists i :: 0 <= i < |name| && !Plain(name[i]) && name[i] != DOT
  }
}
