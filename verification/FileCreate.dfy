/** create_block: it gives one block number a zone and leaves every other as it was. */
module FileCreate {
  import opened FileStore
  import opened FileOwnership

  ghost predicate SameBytes(s: Store, s': Store) {
    forall i, p :: 0 <= i < |s.inodes| && 0 <= p < MAX_SIZE ==> ByteAt(s', i, p) == ByteAt(s, i, p)
  }

  ghost predicate SameSizes(s: Store, s': Store) {
    |s'.inodes| == |s.inodes| && forall i :: 0 <= i < |s.inodes| ==>
      s'.inodes[i].size == s.inodes[i].size && s'.inodes[i].regular == s.inodes[i].regular
  }

  // s' may have given slot p a block, and nothing else has changed that a reader could see
  ghost predicate Fills(s: Store, s': Store, p: Slot) {
    && Inv(s') && SameDevice(s, s') && Lost(s') == Lost(s)
    && SameSizes(s, s') && SameBytes(s, s')
    && (forall q :: IsSlot(s, q) && q != p ==> At(s', q) == At(s, q))
    && (IsSlot(s, p) && At(s, p) != 0 ==> At(s', p) == At(s, p))
    && (At(s', p) == 0 ==> Full(s'))
  }

  // no zone of the device is free
  ghost predicate Full(s: Store)
    requires 1 <= s.first
  {
    forall b :: IsZone(s, b) ==> InUse(s, b)
  }

  // the blocks other than n and the holder of p keep their contents, and n is cleared
  ghost predicate DiskPlugged(s: Store, s': Store, p: Slot, n: nat) {
    && |s'.disk| == |s.disk| && n < |s.disk| && s'.disk[n] == ZeroBlock()
    && (forall b :: 0 <= b < |s.disk| && b != n && (p.Direct? || b != Holder(s, p)) ==> s'.disk[b] == s.disk[b])
  }

  lemma PlugKeepsBytes(s: Store, s': Store, p: Slot, n: nat)
    requires Inv(s) && Plugs(s, s', p, n) && At(s, p) == 0 && !InUse(s, n) && DiskPlugged(s, s', p, n)
    requires p.Direct? || Holder(s, p) != 0
    ensures SameBytes(s, s')
  {
    forall i, a | 0 <= i < |s.inodes| && 0 <= a < MAX_SIZE
      ensures ByteAt(s', i, a) == ByteAt(s, i, a)
    {
      PlugKeepsByte(s, s', p, n, i, a);
    }
  }

  lemma PlugKeepsByte(s: Store, s': Store, p: Slot, n: nat, i: nat, a: nat)
    requires Inv(s) && Plugs(s, s', p, n) && At(s, p) == 0 && !InUse(s, n) && DiskPlugged(s, s', p, n)
    requires p.Direct? || Holder(s, p) != 0
    requires i < |s.inodes| && a < MAX_SIZE
    ensures ByteAt(s', i, a) == ByteAt(s, i, a)
  {
    var q := DataSlot(i, a / BLOCK_SIZE);
    BmapIsSlot(s, i, a / BLOCK_SIZE);
    BmapIsSlot(s', i, a / BLOCK_SIZE);
    if q != p && At(s, q) != 0 {
      assert At(s, q) != n;
      if !p.Direct? {
        assert IsSlot(s, Parent(p)) && At(s, Parent(p)) == Holder(s, p) && Parent(p) != q;
      }
    }
  }

  lemma FillZoneSlots(s: Store, i: nat, k: nat)
    requires Inv(s) && IsSlot(s, Direct(i, k)) && Zone(s, i, k) == 0 && FreeZone(s) != 0
    ensures Plugs(s, FillZone(s, i, k), Direct(i, k), FreeZone(s))
    ensures DiskPlugged(s, FillZone(s, i, k), Direct(i, k), FreeZone(s))
  {
    FreeZoneUnused(s);
    var n, s' := FreeZone(s), FillZone(s, i, k);
    forall q | IsSlot(s, q) && q != Direct(i, k)
      ensures At(s', q) == At(s, q)
    {
      PlugZoneKeepsSlot(s, s', i, k, n, q);
    }
  }

  lemma PlugZoneKeepsSlot(s: Store, s': Store, i: nat, k: nat, n: nat, q: Slot)
    requires Inv(s) && IsSlot(s, Direct(i, k)) && Zone(s, i, k) == 0 && IsZone(s, n) && !Owned(s, n)
    requires |s'.disk| == |s.disk| && s'.disk == s.disk[n := ZeroBlock()] && s'.inodes == SetZone(s, i, k, n).inodes
    requires IsSlot(s, q) && q != Direct(i, k)
    ensures At(s', q) == At(s, q)
  {
    if !q.Direct? {
      var r := Parent(q);
      assert IsSlot(s, r) && At(s, r) == Holder(s, q);
      assert Holder(s, q) != n;
      if q.Leaf? { assert IsSlot(s, Direct(q.i, 8)) && Zone(s, q.i, 8) == At(s, Direct(q.i, 8)) != n; }
    }
  }

  lemma FillPointerSlots(s: Store, p: Slot, j: nat)
    requires Inv(s) && IsSlot(s, p) && !p.Direct? && j == (if p.Double? then p.j else p.k) && Holder(s, p) != 0
    requires At(s, p) == 0 && FreeZone(s) != 0
    ensures Plugs(s, FillPointer(s, Holder(s, p), j), p, FreeZone(s))
    ensures DiskPlugged(s, FillPointer(s, Holder(s, p), j), p, FreeZone(s))
  {
    FreeZoneUnused(s);
    var n, h, s' := FreeZone(s), Holder(s, p), FillPointer(s, Holder(s, p), j);
    assert IsSlot(s, Parent(p)) && At(s, Parent(p)) == h;
    assert s'.disk == s.disk[n := ZeroBlock()][h := SetEntry(s.disk[h], j, n)];
    forall q | IsSlot(s, q)
      ensures At(s', q) == if q == p then n else At(s, q)
    {
      PlugPointerKeepsSlot(s, s', p, j, n, q);
    }
  }

  lemma PlugPointerKeepsSlot(s: Store, s': Store, p: Slot, j: nat, n: nat, q: Slot)
    requires Inv(s) && IsSlot(s, p) && !p.Direct? && j == (if p.Double? then p.j else p.k) && Holder(s, p) != 0
    requires At(s, p) == 0
    requires IsZone(s, n) && n != 0 && !Owned(s, n) && IsZone(s, Holder(s, p)) && Holder(s, p) != n
    requires |s'.disk| == |s.disk| && s'.inodes == s.inodes
    requires s'.disk == s.disk[n := ZeroBlock()][Holder(s, p) := SetEntry(s.disk[Holder(s, p)], j, n)]
    requires IsSlot(s, q)
    ensures At(s', q) == if q == p then n else At(s, q)
  {
    var h := Holder(s, p);
    assert IsSlot(s, Parent(p)) && At(s, Parent(p)) == h;
    if !q.Direct? {
      var r := Parent(q);
      var jq := if q.Double? then q.j else q.k;
      assert IsSlot(s, r) && At(s, r) == Holder(s, q) && Holder(s, q) != n;
      EntryOfSet(s.disk[h], j, n, jq);
      if q.Leaf? {
        // the holder of a leaf is itself read through the double indirect block
        var d := Direct(q.i, 8);
        assert IsSlot(s, d) && At(s, d) == Zone(s, q.i, 8) != n;
        EntryOfSet(s.disk[h], j, n, q.j);
        if p == r {
          assert Holder(s, q) == 0 && Holder(s', q) == n;
        } else {
          assert Holder(s', q) == Holder(s, q);
        }
      }
      if r == Parent(p) { assert q != p ==> jq != j; }
    }
  }

  lemma SameSlotsLoseNone(s: Store, s': Store)
    requires s'.first == s.first && s'.zones == s.zones && |s'.inodes| == |s.inodes|
    requires forall b :: IsZone(s, b) ==> InUse(s', b) == InUse(s, b)
    requires forall q :: IsSlot(s, q) ==> At(s', q) == At(s, q)
    ensures Lost(s') == Lost(s)
  {
    forall b | IsZone(s, b)
      ensures Owned(s', b) == Owned(s, b)
    {
      if Owned(s, b) { var q :| IsSlot(s, q) && At(s, q) == b; assert IsSlot(s', q) && At(s', q) == b; }
      if Owned(s', b) { var q :| IsSlot(s', q) && At(s', q) == b; assert IsSlot(s, q) && At(s, q) == b; }
    }
  }

  // a full device: at most a bit past the last zone is set
  lemma FullStep(s: Store, p: Slot)
    requires Inv(s) && FreeZone(s) == 0
    ensures Full(TakeZone(s))
    ensures Fills(s, TakeZone(s), p) && TakeZone(s).disk == s.disk && TakeZone(s).inodes == s.inodes
  {
    FirstZeroIsFirst(s.zmap, 0);
    var s' := TakeZone(s);
    forall q | IsSlot(s, q)
      ensures At(s', q) == At(s, q)
    {}
    SameSlotsLoseNone(s, s');
    forall i, a | 0 <= i < |s.inodes| && 0 <= a < MAX_SIZE
      ensures ByteAt(s', i, a) == ByteAt(s, i, a)
    {
      assert Bmap(s', i, a / BLOCK_SIZE) == Bmap(s, i, a / BLOCK_SIZE);
    }
  }

  lemma FillZoneStep(s: Store, i: nat, k: nat)
    requires Inv(s) && IsSlot(s, Direct(i, k))
    ensures Fills(s, FillZone(s, i, k), Direct(i, k))
  {
    var p, s' := Direct(i, k), FillZone(s, i, k);
    if Zone(s, i, k) == 0 {
      if FreeZone(s) == 0 {
        FullStep(s, p);
      } else {
        FreeZoneUnused(s);
        FillZoneSlots(s, i, k);
        PlugKeepsInv(s, s', p, FreeZone(s));
        PlugKeepsBytes(s, s', p, FreeZone(s));
      }
    }
  }

  lemma FillPointerStep(s: Store, p: Slot, j: nat)
    requires Inv(s) && IsSlot(s, p) && !p.Direct? && j == (if p.Double? then p.j else p.k) && Holder(s, p) != 0
    ensures Fills(s, FillPointer(s, Holder(s, p), j), p)
  {
    var s' := FillPointer(s, Holder(s, p), j);
    if At(s, p) == 0 {
      if FreeZone(s) == 0 {
        FullStep(s, p);
      } else {
        FreeZoneUnused(s);
        FillPointerSlots(s, p, j);
        PlugKeepsInv(s, s', p, FreeZone(s));
        PlugKeepsBytes(s, s', p, FreeZone(s));
      }
    }
  }

  // what create_block does to a store: p has a block if there was one to have, and data slots other
  // than p keep their blocks
  ghost predicate Creates(s: Store, s': Store, p: Slot) {
    && Inv(s') && SameDevice(s, s') && Lost(s') == Lost(s)
    && SameSizes(s, s') && SameBytes(s, s')
    && (forall q :: IsSlot(s, q) && At(s, q) != 0 ==> At(s', q) == At(s, q))
    && (forall q :: IsSlot(s, q) && IsData(q) && q != p ==> At(s', q) == At(s, q))
    && (At(s', p) == 0 ==> Full(s'))
  }

  lemma CreatesThen(s: Store, s1: Store, s2: Store, r: Slot, p: Slot)
    requires Fills(s, s1, r) && Creates(s1, s2, p) && (r == p || !IsData(r))
    ensures Creates(s, s2, p)
  {
    forall q | IsSlot(s, q)
      ensures IsSlot(s1, q)
    {}
  }

  lemma FillsCreates(s: Store, s': Store, p: Slot, q: Slot)
    requires Inv(s) && Fills(s, s', p) && (p == q || (!IsData(p) && At(s', p) == 0))
    ensures Creates(s, s', q)
  {}

  /** create_block, whether it finds a zone or not: the block number asked for has a block
      afterwards unless the device is full, and keeps one it had; every other block number of every
      file keeps exactly what it had, no byte of any file reads differently, and every block taken
      on the way is owned by the inode. */
  lemma CreateBlockStep(s: Store, i: nat, block: nat)
    requires Inv(s) && i < |s.inodes| && block < MAX_BLOCKS
    ensures Creates(s, CreateBlock(s, i, block), DataSlot(i, block))
  {
    var p, s' := DataSlot(i, block), CreateBlock(s, i, block);
    BmapIsSlot(s, i, block);
    if block < 7 {
      FillZoneStep(s, i, block);
      FillsCreates(s, s', p, p);
    } else if block - 7 < ENTRIES {
      FillZoneStep(s, i, 7);
      var s1 := FillZone(s, i, 7);
      if Zone(s1, i, 7) == 0 {
        FillsCreates(s, s1, Direct(i, 7), p);
      } else {
        FillPointerStep(s1, p, block - 7);
        FillsCreates(s1, s', p, p);
        CreatesThen(s, s1, s', Direct(i, 7), p);
      }
    } else {
      CreateLeafStep(s, i, block);
    }
  }

  lemma CreateLeafStep(s: Store, i: nat, block: nat)
    requires Inv(s) && i < |s.inodes| && 7 + ENTRIES <= block < MAX_BLOCKS
    ensures Creates(s, CreateBlock(s, i, block), DataSlot(i, block))
  {
    var p, k := DataSlot(i, block), block - 7 - ENTRIES;
    var s1 := FillZone(s, i, 8);
    var s2 := CreateLeaf(s1, i, k);
    FillZoneStep(s, i, 8);
    if Zone(s1, i, 8) == 0 {
      FillsCreates(s, s1, Direct(i, 8), p);
    } else {
      CreateTableStep(s1, i, k);
      CreatesThen(s, s1, s2, Direct(i, 8), p);
    }
  }

  lemma CreateTableStep(s1: Store, i: nat, k: nat)
    requires Inv(s1) && i < |s1.inodes| && k < ENTRIES * ENTRIES && Zone(s1, i, 8) != 0
    ensures Creates(s1, CreateLeaf(s1, i, k), Leaf(i, k / ENTRIES, k % ENTRIES))
  {
    var d, p, s' := Double(i, k / ENTRIES), Leaf(i, k / ENTRIES, k % ENTRIES), CreateLeaf(s1, i, k);
    FillPointerStep(s1, d, k / ENTRIES);
    var s2 := FillPointer(s1, Zone(s1, i, 8), k / ENTRIES);
    assert Zone(s2, i, 8) == At(s2, Direct(i, 8)) == At(s1, Direct(i, 8)) by { assert IsSlot(s1, Direct(i, 8)); }
    if At(s2, d) == 0 {
      FillsCreates(s1, s2, d, p);
    } else {
      FillPointerStep(s2, p, k % ENTRIES);
      FillsCreates(s2, s', p, p);
      CreatesThen(s1, s2, s', d, p);
    }
  }

  /** The same for bmap: a successful call names the block bmap finds there afterwards, and no
      other (file, block number) pair maps to it or has moved. */
  lemma CreateBlockMaps(s: Store, i: nat, block: nat, i2: nat, block2: nat)
    requires Inv(s) && i < |s.inodes| && block < MAX_BLOCKS && i2 < |s.inodes| && block2 < MAX_BLOCKS
    ensures var s' := CreateBlock(s, i, block);
            && Inv(s')
            && (!(i2 == i && block2 == block) ==> Bmap(s', i2, block2) == Bmap(s, i2, block2))
            && (!(i2 == i && block2 == block) && Bmap(s', i, block) != 0 ==> Bmap(s', i2, block2) != Bmap(s', i, block))
            && (Bmap(s, i, block) != 0 ==> Bmap(s', i, block) == Bmap(s, i, block))
            && (Bmap(s', i, block) == 0 ==> Full(s'))
  {
    CreateBlockStep(s, i, block);
    var s' := CreateBlock(s, i, block);
    BmapIsSlot(s, i, block);
    BmapIsSlot(s, i2, block2);
    BmapIsSlot(s', i, block);
    BmapIsSlot(s', i2, block2);
    if DataSlot(i, block) == DataSlot(i2, block2) { DataSlotInjective(i, block, i2, block2); }
  }

  // the steps of _bmap below the single indirect block
  lemma SingleSteps(s: Store, i: nat, block: nat, create: bool)
    requires Inv(s) && i < |s.inodes| && 7 <= block < 7 + ENTRIES
    ensures var s1 := if create then FillZone(s, i, 7) else s; var z := Zone(s1, i, 7);
            var t := if create then CreateBlock(s, i, block) else s;
            && Inv(s1) && z < s1.zones == s.zones
            && (z == 0 ==> t == s1 && Bmap(t, i, block) == 0)
            && (z != 0 ==>
                  && t == (if create then FillPointer(s1, z, block - 7) else s1)
                  && z < |t.disk| && Bmap(t, i, block) == Entry(t.disk[z], block - 7))
  {
    if create { FillZoneStep(s, i, 7); }
    var s1 := if create then FillZone(s, i, 7) else s;
    assert IsSlot(s1, Direct(i, 7)) && At(s1, Direct(i, 7)) == Zone(s1, i, 7);
  }

  // the steps below the double indirect block, for the k-th block there
  lemma DoubleSteps(s: Store, i: nat, k: nat, create: bool)
    requires Inv(s) && i < |s.inodes| && k < ENTRIES * ENTRIES
    ensures var s1 := if create then FillZone(s, i, 8) else s; var z := Zone(s1, i, 8);
            var s2 := if create then FillPointer(s1, z, k / ENTRIES) else s1; var b := Pointer(s2, z, k / ENTRIES);
            var t := if create then CreateBlock(s, i, 7 + ENTRIES + k) else s;
            && Inv(s1) && z < s1.zones == s.zones
            && (z == 0 ==> t == s1 && Bmap(t, i, 7 + ENTRIES + k) == 0)
            && (z != 0 ==> Inv(s2) && s2.zones == s.zones && b < s.zones && Zone(s2, i, 8) == z)
            && (z != 0 && b == 0 ==> t == s2 && Bmap(t, i, 7 + ENTRIES + k) == 0)
            && (z != 0 && b != 0 ==>
                  && t == (if create then FillPointer(s2, b, k % ENTRIES) else s2)
                  && b < |t.disk| && Bmap(t, i, 7 + ENTRIES + k) == Entry(t.disk[b], k % ENTRIES))
  {
    if create { FillZoneStep(s, i, 8); }
    var s1 := if create then FillZone(s, i, 8) else s;
    var z := Zone(s1, i, 8);
    assert IsSlot(s1, Direct(i, 8)) && At(s1, Direct(i, 8)) == z;
    if z != 0 { TableSteps(s1, i, k, create); }
  }

  // from its table on
  lemma TableSteps(s1: Store, i: nat, k: nat, create: bool)
    requires Inv(s1) && i < |s1.inodes| && k < ENTRIES * ENTRIES && Zone(s1, i, 8) != 0
    ensures var z := Zone(s1, i, 8);
            var s2 := if create then FillPointer(s1, z, k / ENTRIES) else s1; var b := Pointer(s2, z, k / ENTRIES);
            var t := if create then CreateLeaf(s1, i, k) else s1;
            && Inv(s2) && s2.zones == s1.zones && b < s1.zones && Zone(s2, i, 8) == z
            && (b == 0 ==> t == s2 && Bmap(t, i, 7 + ENTRIES + k) == 0)
            && (b != 0 ==>
                  && t == (if create then FillPointer(s2, b, k % ENTRIES) else s2)
                  && b < |t.disk| && Bmap(t, i, 7 + ENTRIES + k) == Entry(t.disk[b], k % ENTRIES))
  {
    var d := Double(i, k / ENTRIES);
    if create { FillPointerStep(s1, d, k / ENTRIES); }
    var s2 := if create then FillPointer(s1, Zone(s1, i, 8), k / ENTRIES) else s1;
    assert IsSlot(s1, Direct(i, 8)) && At(s2, Direct(i, 8)) == Zone(s2, i, 8);
    assert IsSlot(s2, d) && At(s2, d) == Pointer(s2, Zone(s2, i, 8), k / ENTRIES);
    if create && At(s2, d) != 0 { KeepsTable(s2, i, k / ENTRIES, k % ENTRIES); }
  }

  // filling a leaf does not move its table
  lemma KeepsTable(s: Store, i: nat, j: nat, k: nat)
    requires Inv(s) && i < |s.inodes| && j < ENTRIES && k < ENTRIES && At(s, Double(i, j)) != 0
    ensures var s' := FillPointer(s, At(s, Double(i, j)), k);
            At(s', Double(i, j)) == At(s, Double(i, j)) && Zone(s', i, 8) == Zone(s, i, 8) && |s'.disk| == |s.disk|
  {
    FillPointerStep(s, Leaf(i, j, k), k);
    assert IsSlot(s, Double(i, j)) && IsSlot(s, Direct(i, 8));
  }
}
