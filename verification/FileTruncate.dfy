/** truncate: it frees exactly the blocks of one inode that nobody else holds, and loses those
    that somebody does. */
module FileTruncate {
  import opened FileStore
  import opened FileOwnership
  import opened FileContents

  // the bits of the blocks in bs cleared, except those of busy blocks, which are pinned
  function Clear(s: Store, bs: set<int>): (r: Store) {
    s.(zmap := seq(|s.zmap|, k requires 0 <= k < |s.zmap| =>
                     s.zmap[k] && !(k + s.first - 1 in bs && k + s.first - 1 !in s.busy)),
       pinned := s.pinned + set b: nat | b in s.busy && b in bs)
  }

  lemma FreeBlockClears(s: Store, bs: set<int>, b: nat)
    requires Shape(s) && IsZone(s, b) && InUse(s, b) && b !in bs
    ensures FreeBlock(Clear(s, bs), b) == Clear(s, bs + {b})
  {
    var k := b - s.first + 1;
    var l, r := FreeBlock(Clear(s, bs), b), Clear(s, bs + {b});
    assert |l.zmap| == |r.zmap|;
    forall j | 0 <= j < |s.zmap|
      ensures l.zmap[j] == r.zmap[j]
    {
      assert j + s.first - 1 == b <==> j == k;
    }
    assert l.zmap == r.zmap;
  }

  // ----- one indirect block ---------------------------------------------------------

  function EntriesFrom(s: Store, b: nat, k: nat): set<int> {
    set j | k <= j < ENTRIES && Pointer(s, b, j) != 0 :: Pointer(s, b, j)
  }

  // entries k.. of b name blocks in use, each once, and none of bs
  ghost predicate Freeable(s: Store, b: nat, k: nat, bs: set<int>) {
    && (forall j :: k <= j < ENTRIES && Pointer(s, b, j) != 0 ==>
          && s.first <= Pointer(s, b, j) && IsZone(s, Pointer(s, b, j))
          && InUse(s, Pointer(s, b, j)) && Pointer(s, b, j) !in bs)
    && (forall j, l :: k <= j < l < ENTRIES && Pointer(s, b, j) != 0 ==> Pointer(s, b, j) != Pointer(s, b, l))
  }

  lemma EntryTurnClears(s: Store, bs: set<int>, b: nat, k: nat)
    requires Shape(s) && k < ENTRIES && Freeable(s, b, k, bs)
    ensures var p := Pointer(s, b, k);
            var bs' := if p == 0 then bs else bs + {p as int};
            && FreeEntry(Clear(s, bs), b, k) == Clear(s, bs')
            && Freeable(s, b, k + 1, bs')
            && bs + EntriesFrom(s, b, k) == bs' + EntriesFrom(s, b, k + 1)
  {
    var p := Pointer(s, b, k);
    assert Pointer(Clear(s, bs), b, k) == p;
    if p != 0 {
      FreeBlockClears(s, bs, p);
      assert EntriesFrom(s, b, k) == {p as int} + EntriesFrom(s, b, k + 1);
    } else {
      assert EntriesFrom(s, b, k) == EntriesFrom(s, b, k + 1);
    }
  }

  lemma {:induction false} FreeEntriesClears(s: Store, bs: set<int>, b: nat, k: nat)
    requires Shape(s) && k <= ENTRIES && Freeable(s, b, k, bs)
    ensures FreeEntries(Clear(s, bs), b, k) == Clear(s, bs + EntriesFrom(s, b, k))
    decreases ENTRIES - k
  {
    if k == ENTRIES {
      assert bs + EntriesFrom(s, b, k) == bs;
    } else {
      var p := Pointer(s, b, k);
      EntryTurnClears(s, bs, b, k);
      FreeEntriesClears(s, if p == 0 then bs else bs + {p as int}, b, k + 1);
      assert Pointer(Clear(s, bs), b, k) == p;
    }
  }

  // the blocks free_ind frees
  function IndBlocks(s: Store, b: nat): set<int> { if b == 0 then {} else EntriesFrom(s, b, 0) + {b} }

  lemma FreeIndClears(s: Store, bs: set<int>, b: nat)
    requires Shape(s) && Freeable(s, b, 0, bs)
    requires b != 0 ==> IsZone(s, b) && InUse(s, b) && b !in bs && b !in EntriesFrom(s, b, 0)
    ensures FreeInd(Clear(s, bs), b) == Clear(s, bs + IndBlocks(s, b))
  {
    if b != 0 {
      FreeEntriesClears(s, bs, b, 0);
      FreeBlockClears(s, bs + EntriesFrom(s, b, 0), b);
      assert bs + EntriesFrom(s, b, 0) + {b} == bs + IndBlocks(s, b);
    } else {
      assert bs + IndBlocks(s, b) == bs;
    }
  }

  // ----- the double indirect block --------------------------------------------------

  function TablesFrom(s: Store, b: nat, j: nat): set<int>
    decreases ENTRIES - j
  {
    if j >= ENTRIES then {} else IndBlocks(s, Pointer(s, b, j)) + TablesFrom(s, b, j + 1)
  }

  predicate Below(p: Slot, i: nat, j: nat) { p.i == i && ((p.Double? && p.j >= j) || (p.Leaf? && p.j >= j)) }

  // no slot from table j of inode i on names a block of bs
  ghost predicate TablesApart(s: Store, i: nat, j: nat, bs: set<int>) {
    forall p {:trigger At(s, p)} :: IsSlot(s, p) && Below(p, i, j) && At(s, p) != 0 ==> At(s, p) !in bs
  }

  lemma InUseAt(s: Store, p: Slot)
    requires Inv(s) && IsSlot(s, p) && At(s, p) != 0
    ensures IsZone(s, At(s, p)) && InUse(s, At(s, p))
  {
  }

  lemma LeavesFreeable(s: Store, i: nat, j: nat, bs: set<int>)
    requires Inv(s) && i < |s.inodes| && j < ENTRIES && TablesApart(s, i, j, bs)
    ensures var t := At(s, Double(i, j));
            && Freeable(s, t, 0, bs)
            && (t != 0 ==> IsZone(s, t) && InUse(s, t) && t !in bs && t !in EntriesFrom(s, t, 0))
            && TablesApart(s, i, j + 1, bs + IndBlocks(s, t))
  {
    var t := At(s, Double(i, j));
    assert IsSlot(s, Double(i, j));
    if t != 0 { InUseAt(s, Double(i, j)); }
    forall k | 0 <= k < ENTRIES && Pointer(s, t, k) != 0
      ensures IsZone(s, Pointer(s, t, k)) && InUse(s, Pointer(s, t, k)) && Pointer(s, t, k) !in bs
      ensures Pointer(s, t, k) != t
    {
      InUseAt(s, Leaf(i, j, k));
    }
    forall k, l | 0 <= k < l < ENTRIES && Pointer(s, t, k) != 0
      ensures Pointer(s, t, k) != Pointer(s, t, l)
    {
      assert At(s, Leaf(i, j, k)) == Pointer(s, t, k) && At(s, Leaf(i, j, l)) == Pointer(s, t, l);
    }
    forall p | IsSlot(s, p) && Below(p, i, j + 1) && At(s, p) != 0
      ensures At(s, p) !in bs + IndBlocks(s, t)
    {
      forall k | 0 <= k < ENTRIES && Pointer(s, t, k) != 0
        ensures Pointer(s, t, k) != At(s, p)
      {
        assert Pointer(s, t, k) == At(s, Leaf(i, j, k));
      }
    }
  }

  // t is s with other inodes: by now truncate has forgotten the direct zones
  ghost predicate SameBlocks(s: Store, t: Store) { t == s.(inodes := t.inodes) && Shape(t) }

  lemma SameBlocksFreeable(s: Store, t: Store, bs: set<int>, b: nat)
    requires SameBlocks(s, t) && Freeable(s, b, 0, bs)
    ensures Freeable(t, b, 0, bs) && EntriesFrom(t, b, 0) == EntriesFrom(s, b, 0) && IndBlocks(t, b) == IndBlocks(s, b)
  {
    assert forall j :: 0 <= j < ENTRIES ==> Pointer(t, b, j) == Pointer(s, b, j);
    assert EntriesFrom(t, b, 0) == EntriesFrom(s, b, 0);
  }

  // one turn of the loop of free_dind
  lemma TableTurn(s: Store, t: Store, bs: set<int>, i: nat, j: nat)
    requires Inv(s) && SameBlocks(s, t) && i < |s.inodes| && j < ENTRIES && TablesApart(s, i, j, bs)
    ensures var p := Pointer(s, Zone(s, i, 8), j);
            && FreeTable(Clear(t, bs), Zone(s, i, 8), j) == Clear(t, bs + IndBlocks(s, p))
            && TablesApart(s, i, j + 1, bs + IndBlocks(s, p))
  {
    var p := Pointer(s, Zone(s, i, 8), j);
    assert p == At(s, Double(i, j)) && Pointer(Clear(t, bs), Zone(s, i, 8), j) == p;
    LeavesFreeable(s, i, j, bs);
    SameBlocksFreeable(s, t, bs, p);
    FreeIndClears(t, bs, p);
    assert bs + IndBlocks(s, 0) == bs;
  }

  lemma TablesFromRest(s: Store, bs: set<int>, b: nat, j: nat)
    requires j < ENTRIES
    ensures bs + TablesFrom(s, b, j) == bs + IndBlocks(s, Pointer(s, b, j)) + TablesFrom(s, b, j + 1)
  {}

  lemma TablesStep(s: Store, t: Store, bs: set<int>, i: nat, j: nat) returns (bs': set<int>)
    requires Inv(s) && SameBlocks(s, t) && i < |s.inodes| && j < ENTRIES && TablesApart(s, i, j, bs)
    ensures FreeTables(Clear(t, bs), Zone(s, i, 8), j) == FreeTables(Clear(t, bs'), Zone(s, i, 8), j + 1)
    ensures bs + TablesFrom(s, Zone(s, i, 8), j) == bs' + TablesFrom(s, Zone(s, i, 8), j + 1)
    ensures TablesApart(s, i, j + 1, bs')
  {
    TableTurn(s, t, bs, i, j);
    TablesFromRest(s, bs, Zone(s, i, 8), j);
    bs' := bs + IndBlocks(s, Pointer(s, Zone(s, i, 8), j));
  }

  lemma FreeTablesClears(s: Store, t: Store, bs: set<int>, i: nat)
    requires Inv(s) && SameBlocks(s, t) && i < |s.inodes| && TablesApart(s, i, 0, bs)
    ensures FreeTables(Clear(t, bs), Zone(s, i, 8), 0) == Clear(t, bs + TablesFrom(s, Zone(s, i, 8), 0))
  {
    var b, j, done := Zone(s, i, 8), 0, bs;
    while j < ENTRIES
      invariant 0 <= j <= ENTRIES && TablesApart(s, i, j, done)
      invariant FreeTables(Clear(t, bs), b, 0) == FreeTables(Clear(t, done), b, j)
      invariant bs + TablesFrom(s, b, 0) == done + TablesFrom(s, b, j)
    {
      done := TablesStep(s, t, done, i, j);
      j := j + 1;
    }
    assert done + TablesFrom(s, b, j) == done;
  }

  lemma {:induction false} TablesFromAre(s: Store, i: nat, j: nat, b: int)
    requires i < |s.inodes| && j <= ENTRIES
    ensures b in TablesFrom(s, Zone(s, i, 8), j) <==> b != 0 && exists p ::
      IsSlot(s, p) && Below(p, i, j) && At(s, p) == b
    decreases ENTRIES - j
  {
    if j < ENTRIES {
      var t := Pointer(s, Zone(s, i, 8), j);
      TablesFromAre(s, i, j + 1, b);
      if b in IndBlocks(s, t) {
        if b == t {
          assert IsSlot(s, Double(i, j)) && Below(Double(i, j), i, j) && At(s, Double(i, j)) == b;
        } else {
          var k :| 0 <= k < ENTRIES && Pointer(s, t, k) != 0 && b == Pointer(s, t, k);
          assert IsSlot(s, Leaf(i, j, k)) && Below(Leaf(i, j, k), i, j) && At(s, Leaf(i, j, k)) == b;
        }
      }
      if b in TablesFrom(s, Zone(s, i, 8), j + 1) {
        var p :| IsSlot(s, p) && Below(p, i, j + 1) && At(s, p) == b;
        assert Below(p, i, j);
      }
      if b != 0 && exists p :: IsSlot(s, p) && Below(p, i, j) && At(s, p) == b {
        var p :| IsSlot(s, p) && Below(p, i, j) && At(s, p) == b;
        assert p.j != j ==> Below(p, i, j + 1);
      }
    }
  }

  // ----- direct zones ---------------------------------------------------------------

  function DirectFrom(s: Store, i: nat, k: nat): set<int> {
    set j | k <= j < 7 && Zone(s, i, j) != 0 :: Zone(s, i, j)
  }

  // the inode with its direct zones from k on forgotten
  function ForgetDirect(s: Store, i: nat, k: nat): Store
    decreases 7 - k
  {
    if k >= 7 then s else ForgetDirect(SetZone(s, i, k, 0), i, k + 1)
  }

  // direct zones k.. name blocks in use, each once, and none of bs
  ghost predicate DirectFreeable(s: Store, i: nat, k: nat, bs: set<int>) {
    && (forall j :: k <= j < 7 && Zone(s, i, j) != 0 ==>
          s.first <= Zone(s, i, j) && IsZone(s, Zone(s, i, j)) && InUse(s, Zone(s, i, j)) && Zone(s, i, j) !in bs)
    && (forall j, l :: k <= j < l < 7 && Zone(s, i, j) != 0 ==> Zone(s, i, j) != Zone(s, i, l))
  }

  // one turn of the direct loop, given the blocks bs already freed
  lemma DirectTurnClears(s: Store, bs: set<int>, i: nat, k: nat)
    requires Shape(s) && i < |s.inodes| && k < 7
    requires Zone(s, i, k) != 0 ==> IsZone(s, Zone(s, i, k)) && InUse(s, Zone(s, i, k)) && Zone(s, i, k) !in bs
    ensures var b := Zone(s, i, k);
            FreeDirectZone(Clear(s, bs), i, k) == Clear(SetZone(s, i, k, 0), if b == 0 then bs else bs + {b as int})
  {
    var b := Zone(s, i, k);
    if b != 0 {
      FreeBlockClears(s, bs, b);
    } else {
      assert s.inodes[i].zone[k := 0] == s.inodes[i].zone;
      assert SetZone(s, i, k, 0) == s;
    }
  }

  lemma OtherZonesKept(s: Store, i: nat, k: nat)
    requires i < |s.inodes|
    ensures forall j :: 0 <= j < 9 && j != k ==> Zone(SetZone(s, i, k, 0), i, j) == Zone(s, i, j)
  {}

  lemma DirectRest(s: Store, s1: Store, bs: set<int>, i: nat, k: nat)
    requires s1.first == s.first && s1.zones == s.zones && s1.zmap == s.zmap && k < 7 && DirectFreeable(s, i, k, bs)
    requires forall j :: 0 <= j < 9 && j != k ==> Zone(s1, i, j) == Zone(s, i, j)
    ensures DirectFreeable(s1, i, k + 1, if Zone(s, i, k) == 0 then bs else bs + {Zone(s, i, k) as int})
  {}

  lemma DirectFromRest(s: Store, s1: Store, i: nat, k: nat)
    requires k < 7 && forall j :: 0 <= j < 9 && j != k ==> Zone(s1, i, j) == Zone(s, i, j)
    ensures DirectFrom(s, i, k) == DirectFrom(s1, i, k + 1) + if Zone(s, i, k) == 0 then {} else {Zone(s, i, k) as int}
  {
    assert DirectFrom(s1, i, k + 1) == DirectFrom(s, i, k + 1);
  }

  lemma {:induction false} FreeDirectClears(s: Store, bs: set<int>, i: nat, k: nat)
    requires Shape(s) && i < |s.inodes| && k <= 7 && DirectFreeable(s, i, k, bs)
    ensures FreeDirect(Clear(s, bs), i, k) == Clear(ForgetDirect(s, i, k), bs + DirectFrom(s, i, k))
    decreases 7 - k
  {
    if k == 7 {
      assert bs + DirectFrom(s, i, k) == bs;
    } else {
      DirectTurnClears(s, bs, i, k);
      var b, s1 := Zone(s, i, k), SetZone(s, i, k, 0);
      var bs' := if b == 0 then bs else bs + {b as int};
      OtherZonesKept(s, i, k);
      DirectRest(s, s1, bs, i, k);
      DirectFromRest(s, s1, i, k);
      FreeDirectClears(s1, bs', i, k + 1);
      assert bs' + DirectFrom(s1, i, k + 1) == bs + DirectFrom(s, i, k);
      assert FreeDirect(Clear(s, bs), i, k) == FreeDirect(FreeDirectZone(Clear(s, bs), i, k), i, k + 1);
    }
  }

  lemma {:induction false} ForgetDirectZones(s: Store, i: nat, k: nat, j: nat)
    requires Shape(s) && i < |s.inodes| && k <= 7 && j < 9
    ensures var s' := ForgetDirect(s, i, k);
            && s' == s.(inodes := s'.inodes) && |s'.inodes| == |s.inodes| && Shape(s')
            && s'.inodes == s.inodes[i := s.inodes[i].(zone := s'.inodes[i].zone)]
            && Zone(s', i, j) == if k <= j < 7 then 0 else Zone(s, i, j)
    decreases 7 - k
  {
    if k < 7 { ForgetDirectZones(SetZone(s, i, k, 0), i, k + 1, j); }
  }

  // ----- the whole inode ------------------------------------------------------------

  // every block truncate visits
  function Tree(s: Store, i: nat): set<int> {
    DirectFrom(s, i, 0) + IndBlocks(s, Zone(s, i, 7)) +
    if Zone(s, i, 8) == 0 then {} else TablesFrom(s, Zone(s, i, 8), 0) + {Zone(s, i, 8) as int}
  }

  ghost predicate NamedBy(s: Store, i: nat, b: int) { exists p :: IsSlot(s, p) && p.i == i && At(s, p) == b }

  lemma TreeNamed(s: Store, i: nat, b: int)
    requires Shape(s) && i < |s.inodes| && b in Tree(s, i)
    ensures b != 0 && NamedBy(s, i, b)
  {
    if b in DirectFrom(s, i, 0) {
      var k :| 0 <= k < 7 && Zone(s, i, k) != 0 && b == Zone(s, i, k);
      assert IsSlot(s, Direct(i, k)) && At(s, Direct(i, k)) == b;
    } else if b in IndBlocks(s, Zone(s, i, 7)) {
      if b == Zone(s, i, 7) {
        assert IsSlot(s, Direct(i, 7)) && At(s, Direct(i, 7)) == b;
      } else {
        var k :| 0 <= k < ENTRIES && Pointer(s, Zone(s, i, 7), k) != 0 && b == Pointer(s, Zone(s, i, 7), k);
        assert IsSlot(s, Single(i, k)) && At(s, Single(i, k)) == b;
      }
    } else if b == Zone(s, i, 8) {
      assert IsSlot(s, Direct(i, 8)) && At(s, Direct(i, 8)) == b;
    } else {
      TablesFromAre(s, i, 0, b);
    }
  }

  lemma LowerInTables(s: Store, p: Slot)
    requires IsSlot(s, p) && (p.Double? || p.Leaf?) && At(s, p) != 0
    ensures Zone(s, p.i, 8) != 0 && At(s, p) in TablesFrom(s, Zone(s, p.i, 8), 0)
  {
    assert Below(p, p.i, 0);
    TablesFromAre(s, p.i, 0, At(s, p));
  }

  lemma DirectInTree(s: Store, i: nat, k: nat)
    requires k < 9 && Zone(s, i, k) != 0
    ensures Zone(s, i, k) as int in Tree(s, i)
  {
    assert k < 7 ==> Zone(s, i, k) as int in DirectFrom(s, i, 0);
  }

  lemma SingleInTree(s: Store, i: nat, k: nat)
    requires k < ENTRIES && Pointer(s, Zone(s, i, 7), k) != 0
    ensures Pointer(s, Zone(s, i, 7), k) as int in IndBlocks(s, Zone(s, i, 7))
  {
    assert Pointer(s, Zone(s, i, 7), k) as int in EntriesFrom(s, Zone(s, i, 7), 0);
  }

  lemma NamedInTree(s: Store, p: Slot)
    requires Shape(s) && IsSlot(s, p) && At(s, p) != 0
    ensures At(s, p) in Tree(s, p.i)
  {
    match p
    case Direct(i, k) => DirectInTree(s, i, k);
    case Single(i, k) => SingleInTree(s, i, k);
    case _ => LowerInTables(s, p);
  }

  // the inode as truncate leaves it
  function Emptied(s: Store, i: nat): Store {
    SetSize(SetZone(SetZone(ForgetDirect(s, i, 0), i, 7, 0), i, 8, 0), i, 0)
  }

  // blocks up to and including the single indirect block
  function UpperBlocks(s: Store, i: nat): set<int> { DirectFrom(s, i, 0) + IndBlocks(s, Zone(s, i, 7)) }

  lemma ZonesFreeable(s: Store, i: nat)
    requires Inv(s) && i < |s.inodes|
    ensures DirectFreeable(s, i, 0, {})
    ensures Freeable(s, Zone(s, i, 7), 0, DirectFrom(s, i, 0))
    ensures Zone(s, i, 7) != 0 ==>
      && IsZone(s, Zone(s, i, 7)) && InUse(s, Zone(s, i, 7))
      && Zone(s, i, 7) !in DirectFrom(s, i, 0) && Zone(s, i, 7) !in EntriesFrom(s, Zone(s, i, 7), 0)
  {
    forall j | 0 <= j < 9 && Zone(s, i, j) != 0
      ensures IsZone(s, Zone(s, i, j)) && InUse(s, Zone(s, i, j))
    {
      InUseAt(s, Direct(i, j));
    }
    forall j, l | 0 <= j < l < 9 && Zone(s, i, j) != 0
      ensures Zone(s, i, j) != Zone(s, i, l)
    {
      assert At(s, Direct(i, j)) == Zone(s, i, j) && At(s, Direct(i, l)) == Zone(s, i, l);
    }
    SinglesFreeable(s, i);
  }

  lemma SinglesFreeable(s: Store, i: nat)
    requires Inv(s) && i < |s.inodes|
    ensures Freeable(s, Zone(s, i, 7), 0, DirectFrom(s, i, 0))
    ensures Zone(s, i, 7) != 0 ==> Zone(s, i, 7) !in EntriesFrom(s, Zone(s, i, 7), 0)
  {
    var b := Zone(s, i, 7);
    forall k | 0 <= k < ENTRIES && Pointer(s, b, k) != 0
      ensures IsZone(s, Pointer(s, b, k)) && InUse(s, Pointer(s, b, k)) && Pointer(s, b, k) !in DirectFrom(s, i, 0)
      ensures Pointer(s, b, k) != b
    {
      InUseAt(s, Single(i, k));
      forall j | 0 <= j < 9 ensures Zone(s, i, j) != Pointer(s, b, k) {
        assert At(s, Direct(i, j)) == Zone(s, i, j) && At(s, Single(i, k)) == Pointer(s, b, k);
      }
    }
    forall k, l | 0 <= k < l < ENTRIES && Pointer(s, b, k) != 0
      ensures Pointer(s, b, k) != Pointer(s, b, l)
    {
      assert At(s, Single(i, k)) == Pointer(s, b, k) && At(s, Single(i, l)) == Pointer(s, b, l);
    }
  }

  lemma LowerBlocksApart(s: Store, i: nat)
    requires Inv(s) && i < |s.inodes|
    ensures TablesApart(s, i, 0, UpperBlocks(s, i))
    ensures Zone(s, i, 8) != 0 ==>
      && IsZone(s, Zone(s, i, 8)) && InUse(s, Zone(s, i, 8))
      && Zone(s, i, 8) !in UpperBlocks(s, i) + TablesFrom(s, Zone(s, i, 8), 0)
  {
    forall p | IsSlot(s, p) && p.i == i && At(s, p) != 0 && (Below(p, i, 0) || p == Direct(i, 8))
      ensures At(s, p) !in UpperBlocks(s, i)
    {
      forall j | 0 <= j < 8 ensures Zone(s, i, j) != At(s, p) { assert At(s, Direct(i, j)) == Zone(s, i, j); }
      forall k | 0 <= k < ENTRIES && Pointer(s, Zone(s, i, 7), k) != 0
        ensures Pointer(s, Zone(s, i, 7), k) != At(s, p)
      {
        assert At(s, Single(i, k)) == Pointer(s, Zone(s, i, 7), k);
      }
    }
    if Zone(s, i, 8) != 0 {
      InUseAt(s, Direct(i, 8));
      TablesFromAre(s, i, 0, Zone(s, i, 8));
    }
  }

  // the direct zones, freed and forgotten
  lemma TruncateDirect(s: Store, i: nat)
    requires Inv(s) && i < |s.inodes|
    ensures var t := ForgetDirect(s, i, 0);
            && SameBlocks(s, t) && Zone(t, i, 7) == Zone(s, i, 7) && Zone(t, i, 8) == Zone(s, i, 8)
            && FreeDirect(s, i, 0) == Clear(t, DirectFrom(s, i, 0))
  {
    ForgetDirectZones(s, i, 0, 7);
    ForgetDirectZones(s, i, 0, 8);
    ZonesFreeable(s, i);
    assert Clear(s, {}) == s;
    FreeDirectClears(s, {}, i, 0);
    assert {} + DirectFrom(s, i, 0) == DirectFrom(s, i, 0);
  }

  // the rest of the inode is forgotten after the bits were cleared, or before
  lemma ForgetClears(t: Store, bs: set<int>, i: nat)
    ensures SetSize(SetZone(SetZone(Clear(t, bs), i, 7, 0), i, 8, 0), i, 0) ==
            Clear(SetSize(SetZone(SetZone(t, i, 7, 0), i, 8, 0), i, 0), bs)
  {}

  /** truncate never meets a bit that is already clear: it clears the bits of exactly the
      blocks of the inode that nobody else holds, and empties the inode. */
  lemma TruncateClears(s: Store, i: nat)
    requires Inv(s) && i < |s.inodes| && s.inodes[i].regular
    ensures Truncate(s, i) == Clear(Emptied(s, i), Tree(s, i))
  {
    var t := ForgetDirect(s, i, 0);
    TruncateDirect(s, i);
    var s1 := FreeDirect(s, i, 0);
    assert Zone(s1, i, 7) == Zone(s, i, 7) && Zone(s1, i, 8) == Zone(s, i, 8);
    TruncateIndirect(s, t, i);
    ForgetClears(t, Tree(s, i), i);
  }

  // what is freed after the direct zones: first below the single indirect block
  lemma TruncateSingle(s: Store, t: Store, i: nat)
    requires Inv(s) && i < |s.inodes| && SameBlocks(s, t)
    ensures FreeInd(Clear(t, DirectFrom(s, i, 0)), Zone(s, i, 7)) == Clear(t, UpperBlocks(s, i))
  {
    ZonesFreeable(s, i);
    SameBlocksFreeable(s, t, DirectFrom(s, i, 0), Zone(s, i, 7));
    FreeIndClears(t, DirectFrom(s, i, 0), Zone(s, i, 7));
  }

  // and then below the double indirect block
  lemma TruncateDouble(s: Store, t: Store, i: nat)
    requires Inv(s) && i < |s.inodes| && SameBlocks(s, t)
    ensures FreeDind(Clear(t, UpperBlocks(s, i)), Zone(s, i, 8)) == Clear(t, Tree(s, i))
  {
    var z := Zone(s, i, 8);
    LowerBlocksApart(s, i);
    TreeIs(s, i);
    if z != 0 { FreeDindClears(s, t, UpperBlocks(s, i), i); }
  }

  // free_dind with the blocks bs freed before
  lemma FreeDindClears(s: Store, t: Store, bs: set<int>, i: nat)
    requires Inv(s) && i < |s.inodes| && SameBlocks(s, t) && TablesApart(s, i, 0, bs) && Zone(s, i, 8) != 0
    requires IsZone(s, Zone(s, i, 8)) && InUse(s, Zone(s, i, 8))
    requires Zone(s, i, 8) !in bs + TablesFrom(s, Zone(s, i, 8), 0)
    ensures FreeDind(Clear(t, bs), Zone(s, i, 8)) ==
            Clear(t, bs + TablesFrom(s, Zone(s, i, 8), 0) + {Zone(s, i, 8) as int})
  {
    var z := Zone(s, i, 8);
    FreeTablesClears(s, t, bs, i);
    FreeBlockClears(t, bs + TablesFrom(s, z, 0), z);
  }

  lemma TreeIs(s: Store, i: nat)
    ensures var z, upper := Zone(s, i, 8), UpperBlocks(s, i);
            Tree(s, i) == if z == 0 then upper else upper + TablesFrom(s, z, 0) + {z as int}
  {
    var z, upper := Zone(s, i, 8), UpperBlocks(s, i);
    UnionAssoc(upper, TablesFrom(s, z, 0), {z as int});
  }

  lemma UnionAssoc(a: set<int>, b: set<int>, c: set<int>)
    ensures a + (b + c) == a + b + c && a + {} == a
  {}

  lemma TruncateIndirect(s: Store, t: Store, i: nat)
    requires Inv(s) && i < |s.inodes| && SameBlocks(s, t)
    ensures FreeDind(FreeInd(Clear(t, DirectFrom(s, i, 0)), Zone(s, i, 7)), Zone(s, i, 8)) == Clear(t, Tree(s, i))
  {
    TruncateSingle(s, t, i);
    TruncateDouble(s, t, i);
  }

  // ----- what is left ---------------------------------------------------------------

  lemma EmptiedZones(s: Store, i: nat, i2: nat, j: nat)
    requires Shape(s) && i < |s.inodes| && i2 < |s.inodes| && j < 9
    ensures var u := Emptied(s, i);
            && u == s.(inodes := u.inodes) && |u.inodes| == |s.inodes| && Shape(u)
            && Zone(u, i2, j) == (if i2 == i then 0 else Zone(s, i2, j))
            && Size(u, i2) == (if i2 == i then 0 else Size(s, i2)) && u.inodes[i2].regular == s.inodes[i2].regular
  {
    ForgetDirectZones(s, i, 0, j);
  }

  // the slots of the inode are empty, and all others are as they were
  lemma EmptiedSlots(s: Store, i: nat, q: Slot)
    requires Shape(s) && i < |s.inodes| && IsSlot(s, q)
    ensures At(Emptied(s, i), q) == if q.i == i then 0 else At(s, q)
  {
    if q.Direct? { EmptiedZones(s, i, q.i, q.k); }
    EmptiedZones(s, i, q.i, 7);
    EmptiedZones(s, i, q.i, 8);
  }

  lemma ClearedBit(s: Store, bs: set<int>, b: int)
    requires Shape(s) && IsZone(s, b)
    ensures InUse(Clear(s, bs), b) <==> InUse(s, b) && !(b in bs && b !in s.busy)
  {
    var k := b - s.first + 1;
    assert k + s.first - 1 == b;
  }

  lemma TreeIsNamed(s: Store, i: nat, b: int)
    requires Shape(s) && i < |s.inodes|
    ensures b in Tree(s, i) <==> b != 0 && NamedBy(s, i, b)
  {
    if b in Tree(s, i) { TreeNamed(s, i, b); }
    if b != 0 && NamedBy(s, i, b) {
      var p :| IsSlot(s, p) && p.i == i && At(s, p) == b;
      NamedInTree(s, p);
    }
  }

  lemma TreeInZones(s: Store, i: nat, b: int)
    requires Inv(s) && i < |s.inodes| && b in Tree(s, i)
    ensures IsZone(s, b)
  {
    TreeNamed(s, i, b);
    var p :| IsSlot(s, p) && p.i == i && At(s, p) == b;
  }

  // inode i has size 0 and the others keep theirs
  ghost predicate SizesCut(s: Store, u: Store, i: nat) {
    && |u.inodes| == |s.inodes|
    && forall i2 :: 0 <= i2 < |s.inodes| ==>
         Size(u, i2) == (if i2 == i then 0 else Size(s, i2)) && u.inodes[i2].regular == s.inodes[i2].regular
  }

  // u is s with the slots of inode i emptied
  ghost predicate Strips(s: Store, u: Store, i: nat) {
    && Shape(u) && u == s.(inodes := u.inodes) && SizesCut(s, u, i)
    && (forall q {:trigger At(u, q)} :: IsSlot(s, q) ==> At(u, q) == if q.i == i then 0 else At(s, q))
  }

  // bs are the blocks that slots of inode i name
  ghost predicate Named(s: Store, bs: set<int>, i: nat) {
    && (forall b :: IsZone(s, b) ==> (b in bs <==> NamedBy(s, i, b)))
    && (forall b :: b in bs ==> IsZone(s, b))
  }

  lemma EmptiedStrips(s: Store, i: nat)
    requires Shape(s) && i < |s.inodes|
    ensures Strips(s, Emptied(s, i), i)
  {
    EmptiedZones(s, i, i, 0);
    forall i2 | 0 <= i2 < |s.inodes|
      ensures Size(Emptied(s, i), i2) == (if i2 == i then 0 else Size(s, i2))
      ensures Emptied(s, i).inodes[i2].regular == s.inodes[i2].regular
    {
      EmptiedZones(s, i, i2, 0);
    }
    forall q | IsSlot(s, q)
      ensures At(Emptied(s, i), q) == if q.i == i then 0 else At(s, q)
    {
      EmptiedSlots(s, i, q);
    }
  }

  lemma TreeNames(s: Store, i: nat)
    requires Inv(s) && i < |s.inodes|
    ensures Named(s, Tree(s, i), i)
  {
    forall b | IsZone(s, b)
      ensures b in Tree(s, i) <==> NamedBy(s, i, b)
    {
      TreeIsNamed(s, i, b);
    }
    forall b | b in Tree(s, i) ensures IsZone(s, b) { TreeInZones(s, i, b); }
  }

  // s' has lost the blocks of inode i that nobody else holds, and the inode its slots
  ghost predicate Frees(s: Store, s': Store, i: nat) {
    && Shape(s) && Shape(s') && SizesCut(s, s', i)
    && s' == s.(zmap := s'.zmap, inodes := s'.inodes, pinned := s'.pinned)
    && (forall b: nat :: b in s'.pinned <==> b in s.pinned || (IsZone(s, b) && b in s.busy && NamedBy(s, i, b)))
    && |s'.zmap| > 0 && (s.zmap[0] ==> s'.zmap[0])
    && (forall q {:trigger At(s', q)} :: IsSlot(s, q) ==> At(s', q) == if q.i == i then 0 else At(s, q))
    && (forall b :: IsZone(s, b) ==> (InUse(s', b) <==> InUse(s, b) && !(NamedBy(s, i, b) && b !in s.busy)))
  }

  lemma StripsFrees(s: Store, u: Store, bs: set<int>, i: nat)
    requires Shape(s) && Strips(s, u, i) && Named(s, bs, i)
    ensures Frees(s, Clear(u, bs), i)
  {
    var s' := Clear(u, bs);
    forall q | IsSlot(s, q) ensures At(s', q) == At(u, q) {}
    forall b | IsZone(s, b)
      ensures InUse(s', b) <==> InUse(s, b) && !(NamedBy(s, i, b) && b !in s.busy)
    {
      ClearedBit(u, bs, b);
    }
  }

  /** truncate in terms of blocks: it frees a block exactly when the inode owns it and nobody
      else holds it, no other slot of any inode changes, and no panic is reached. */
  lemma TruncateFrees(s: Store, i: nat)
    requires Inv(s) && i < |s.inodes| && s.inodes[i].regular
    ensures Frees(s, Truncate(s, i), i)
  {
    TruncateClears(s, i);
    EmptiedStrips(s, i);
    TreeNames(s, i);
    StripsFrees(s, Emptied(s, i), Tree(s, i), i);
  }

  // nobody else holds a block of the inode
  ghost predicate Unheld(s: Store, i: nat) {
    forall p {:trigger At(s, p)} :: IsSlot(s, p) && p.i == i && At(s, p) != 0 ==> At(s, p) !in s.busy
  }

  /** The blocks of the inode that somebody else holds. */
  ghost function HeldBlocks(s: Store, i: nat): (held: set<int>)
    ensures forall b :: b in held <==> IsZone(s, b) && b in s.busy && NamedBy(s, i, b)
  {
    set b | s.first <= b < s.zones && b in s.busy && NamedBy(s, i, b)
  }

  lemma OneOwner(s: Store, q: Slot, i: nat)
    requires Inv(s) && IsSlot(s, q) && At(s, q) != 0
    ensures NamedBy(s, i, At(s, q)) <==> q.i == i
  {}

  lemma FreesKeepsInv(s: Store, s': Store, i: nat)
    requires Inv(s) && Frees(s, s', i)
    ensures Inv(s')
  {
    forall q | IsSlot(s', q) && At(s', q) != 0
      ensures IsSlot(s, q) && At(s', q) == At(s, q) && !NamedBy(s, i, At(s, q))
    {
      OneOwner(s, q, i);
    }
  }

  // the zones of the inode have no owner any more, and all others the one they had
  lemma FreesOwned(s: Store, s': Store, i: nat, b: int)
    requires Inv(s) && Frees(s, s', i) && IsZone(s, b)
    ensures Owned(s', b) <==> Owned(s, b) && !NamedBy(s, i, b)
    ensures NamedBy(s, i, b) ==> InUse(s, b)
  {
    if Owned(s', b) {
      var q :| IsSlot(s', q) && At(s', q) == b;
      assert IsSlot(s, q) && At(s, q) == b;
      OneOwner(s, q, i);
    } else if Owned(s, b) {
      var q :| IsSlot(s, q) && At(s, q) == b;
      assert IsSlot(s', q);
    }
  }

  lemma FreesLoses(s: Store, s': Store, i: nat)
    requires Inv(s) && Frees(s, s', i)
    ensures Lost(s') == Lost(s) + HeldBlocks(s, i)
  {
    forall b | IsZone(s, b)
      ensures b in Lost(s') <==> b in Lost(s) + HeldBlocks(s, i)
    {
      FreesOwned(s, s', i, b);
      assert NamedBy(s, i, b) ==> Owned(s, b);
    }
  }

  // the buffers of these blocks, and no others, have been pinned
  ghost predicate Pins(s: Store, s': Store, blocks: set<int>) {
    forall b: nat :: b in s'.pinned <==> b in s.pinned || b in blocks
  }

  /** truncate keeps blocks named once and in use, whoever holds them; what it loses for ever is
      exactly the blocks of the inode that somebody else holds, and their buffers with them. */
  lemma TruncateLoses(s: Store, i: nat)
    requires Inv(s) && i < |s.inodes| && s.inodes[i].regular
    ensures Inv(Truncate(s, i)) && Lost(Truncate(s, i)) == Lost(s) + HeldBlocks(s, i)
    ensures Pins(s, Truncate(s, i), HeldBlocks(s, i))
  {
    TruncateFrees(s, i);
    FreesKeepsInv(s, Truncate(s, i), i);
    FreesLoses(s, Truncate(s, i), i);
  }

  /** So a bitmap that is exact stays exact if and only if nobody else holds a block of the
      inode. */
  lemma TruncateStaysExact(s: Store, i: nat)
    requires Inv(s) && BitsExact(s) && i < |s.inodes| && s.inodes[i].regular
    ensures BitsExact(Truncate(s, i)) <==> Unheld(s, i)
  {
    TruncateLoses(s, i);
    ExactIffNoneLost(s);
    ExactIffNoneLost(Truncate(s, i));
    if !Unheld(s, i) {
      var p :| IsSlot(s, p) && p.i == i && At(s, p) != 0 && At(s, p) in s.busy;
      assert At(s, p) in HeldBlocks(s, i);
    }
    if b :| b in HeldBlocks(s, i) {
      var p :| IsSlot(s, p) && p.i == i && At(s, p) == b;
      assert !Unheld(s, i);
    }
  }

  /** After truncate the file is empty, every other file reads as before, and nothing but
      zeros lies past the end of any. */
  lemma FreesContents(s: Store, s': Store, i: nat)
    requires Good(s) && Frees(s, s', i) && i < |s.inodes|
    ensures ZeroTails(s') && Becomes(s, s', i, [])
  {
    forall i2, a | 0 <= i2 < |s.inodes| && 0 <= a < MAX_SIZE
      ensures ByteAt(s', i2, a) == if i2 == i then 0 else ByteAt(s, i2, a)
    {
      BmapIsSlot(s, i2, a / BLOCK_SIZE);
      BmapIsSlot(s', i2, a / BLOCK_SIZE);
    }
    forall i2 | 0 <= i2 < |s.inodes|
      ensures Content(s', i2) == if i2 == i then [] else Content(s, i2)
    {
      assert |Content(s', i2)| == |if i2 == i then [] else Content(s, i2)|;
    }
  }
}
