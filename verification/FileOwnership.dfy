/** Who owns a block: the slots of the block trees, and the invariant that slots name zones in
    use and never share one. */
module FileOwnership {
  import opened FileStore

  /** A place that can name a block: a zone slot of an inode, an entry of its single or double
      indirect block, or an entry of one of the tables below the double indirect block. */
  datatype Slot =
    | Direct(i: nat, k: nat)
    | Single(i: nat, k: nat)
    | Double(i: nat, j: nat)
    | Leaf(i: nat, j: nat, k: nat)

  ghost predicate IsSlot(s: Store, p: Slot) {
    p.i < |s.inodes| &&
    match p
    case Direct(_, k) => k < 9
    case Single(_, k) => k < ENTRIES
    case Double(_, j) => j < ENTRIES
    case Leaf(_, j, k) => j < ENTRIES && k < ENTRIES
  }

  // the block that holds the slot; 0 for slots of the inode itself or when there is none
  function Holder(s: Store, p: Slot): nat {
    match p
    case Direct(_, _) => 0
    case Single(i, _) => Zone(s, i, 7)
    case Double(i, _) => Zone(s, i, 8)
    case Leaf(i, j, _) => Pointer(s, Zone(s, i, 8), j)
  }

  // the block a slot names, or 0
  function At(s: Store, p: Slot): nat {
    match p
    case Direct(i, k) => Zone(s, i, k)
    case Single(i, k) => Pointer(s, Zone(s, i, 7), k)
    case Double(i, j) => Pointer(s, Zone(s, i, 8), j)
    case Leaf(i, j, k) => Pointer(s, Pointer(s, Zone(s, i, 8), j), k)
  }

  // the slot that names the holder
  function Parent(p: Slot): Slot
    requires !p.Direct?
  {
    match p
    case Single(i, _) => Direct(i, 7)
    case Double(i, _) => Direct(i, 8)
    case Leaf(i, j, _) => Double(i, j)
  }

  // slots that name data, not further slots
  predicate IsData(p: Slot) { (p.Direct? && p.k < 7) || p.Single? || p.Leaf? }

  // the slot of block number `block` of file i
  function DataSlot(i: nat, block: nat): Slot {
    if block < 7 then Direct(i, block)
    else if block - 7 < ENTRIES then Single(i, block - 7)
    else Leaf(i, (block - 7 - ENTRIES) / ENTRIES, (block - 7 - ENTRIES) % ENTRIES)
  }

  lemma BmapIsSlot(s: Store, i: nat, block: nat)
    requires i < |s.inodes| && block < MAX_BLOCKS
    ensures IsSlot(s, DataSlot(i, block)) && IsData(DataSlot(i, block))
    ensures Bmap(s, i, block) == At(s, DataSlot(i, block))
  {}

  lemma DataSlotInjective(i: nat, block: nat, i2: nat, block2: nat)
    requires DataSlot(i, block) == DataSlot(i2, block2)
    ensures i == i2 && block == block2
  {}

  // ----- the block tree as it lies on the disk --------------------------------------

  // the k-th short of a block is n, with the low byte first
  predicate HoldsShort(block: Block, k: nat, n: nat) {
    2 * k + 1 < |block| && block[2 * k] == n % 256 && block[2 * k + 1] == n / 256
  }

  // zone b is the k-th short of block h, or none if there is no such block
  predicate ListedIn(disk: seq<Block>, h: nat, k: nat, b: nat) {
    if h == 0 then b == 0 else h < |disk| && HoldsShort(disk[h], k, b)
  }

  // the same through a block t of the table h
  predicate ListedThrough(disk: seq<Block>, h: nat, j: nat, t: nat, k: nat, b: nat) {
    ListedIn(disk, h, j, t) && ListedIn(disk, t, k, b)
  }

  ghost predicate ListedBelow(disk: seq<Block>, h: nat, j: nat, k: nat, b: nat) {
    exists t: nat :: ListedThrough(disk, h, j, t, k, b)
  }

  /** What the zone numbers of an inode and the bytes of the disk say of a block number: the first
      seven are in the inode, the next 512 in the block of its zone 7, and the rest in the 512 blocks
      that the block of its zone 8 lists. */
  ghost predicate MapsTo(disk: seq<Block>, zone: seq<nat>, block: nat, b: nat)
    requires |zone| == 9
  {
    if block < 7 then b == zone[block]
    else if block < 519 then ListedIn(disk, zone[7], block - 7, b)
    else ListedBelow(disk, zone[8], (block - 519) / 512, (block - 519) % 512, b)
  }

  // the bytes of a short, and the number they make
  lemma EntryBytes(block: Block, k: nat)
    requires |block| == BLOCK_SIZE && k < ENTRIES
    ensures HoldsShort(block, k, Entry(block, k))
  {}

  lemma ShortOnce(block: Block, k: nat, n: nat, m: nat)
    requires HoldsShort(block, k, n) && HoldsShort(block, k, m)
    ensures n == m
  {}

  lemma PointerListed(s: Store, h: nat, k: nat)
    requires Shape(s) && h < |s.disk| && k < ENTRIES
    ensures ListedIn(s.disk, h, k, Pointer(s, h, k))
  {
    if h != 0 { EntryBytes(s.disk[h], k); }
  }

  /** bmap answers what the bytes say. */
  lemma BmapIsOnDisk(s: Store, i: nat, block: nat)
    requires Inv(s) && i < |s.inodes| && block < MAX_BLOCKS
    ensures MapsTo(s.disk, s.inodes[i].zone, block, Bmap(s, i, block))
  {
    if 7 <= block < 519 {
      assert IsSlot(s, Direct(i, 7)) && At(s, Direct(i, 7)) == Zone(s, i, 7);
      PointerListed(s, Zone(s, i, 7), block - 7);
    } else if block >= 519 {
      var j, k := (block - 519) / 512, (block - 519) % 512;
      assert IsSlot(s, Direct(i, 8)) && At(s, Direct(i, 8)) == Zone(s, i, 8);
      PointerListed(s, Zone(s, i, 8), j);
      assert IsSlot(s, Double(i, j)) && At(s, Double(i, j)) == Pointer(s, Zone(s, i, 8), j);
      PointerListed(s, Pointer(s, Zone(s, i, 8), j), k);
      assert ListedThrough(s.disk, Zone(s, i, 8), j, Pointer(s, Zone(s, i, 8), j), k, Bmap(s, i, block));
    }
  }

  /** and they say only one thing. */
  lemma MapsToOnce(disk: seq<Block>, zone: seq<nat>, block: nat, b: nat, c: nat)
    requires |zone| == 9 && MapsTo(disk, zone, block, b) && MapsTo(disk, zone, block, c)
    ensures b == c
  {
    if 7 <= block < 519 && zone[7] != 0 {
      ShortOnce(disk[zone[7]], block - 7, b, c);
    } else if block >= 519 {
      var j, k := (block - 519) / 512, (block - 519) % 512;
      var t: nat :| ListedThrough(disk, zone[8], j, t, k, b);
      var u: nat :| ListedThrough(disk, zone[8], j, u, k, c);
      if zone[8] != 0 { ShortOnce(disk[zone[8]], j, t, u); }
      if t != 0 { ShortOnce(disk[t], k, b, c); }
    }
  }

  predicate IsZone(s: Store, b: int) { s.first <= b < s.zones }

  predicate InUse(s: Store, b: int)
    requires s.first <= b
  {
    b - s.first + 1 < |s.zmap| && s.zmap[b - s.first + 1]
  }

  // slots name zones whose bits are set
  ghost predicate NamedInUse(s: Store) {
    forall p {:trigger At(s, p)} :: IsSlot(s, p) && At(s, p) != 0 ==> IsZone(s, At(s, p)) && InUse(s, At(s, p))
  }

  // no two slots name the same block
  ghost predicate Injective(s: Store) {
    forall p, q {:trigger At(s, p), At(s, q)} ::
      IsSlot(s, p) && IsSlot(s, q) && At(s, p) != 0 && At(s, p) == At(s, q) ==> p == q
  }

  ghost predicate Owned(s: Store, b: int) { exists p :: IsSlot(s, p) && At(s, p) == b }

  /** The zones whose bits are set although no slot names them: nothing can free them. */
  ghost function Lost(s: Store): (lost: set<int>)
    ensures forall b :: b in lost <==> IsZone(s, b) && InUse(s, b) && !Owned(s, b)
  {
    set b | s.first <= b < s.zones && InUse(s, b) && !Owned(s, b)
  }

  // a zone bit is set exactly when some slot names the zone
  ghost predicate BitsExact(s: Store) {
    forall b {:trigger InUse(s, b)} {:trigger Owned(s, b)} :: IsZone(s, b) ==> (InUse(s, b) <==> Owned(s, b))
  }

  // a buffer that somebody holds is the buffer of a block in use
  ghost predicate BusyInUse(s: Store) { forall b :: b in s.busy && IsZone(s, b) ==> InUse(s, b) }

  ghost predicate Inv(s: Store) {
    && Shape(s)
    && !s.panicked
    && |s.zmap| > 0 && s.zmap[0]
    && NamedInUse(s)
    && Injective(s)
    && BusyInUse(s)
    && s.pinned <= s.busy
  }

  // s' is the same device, with the same buffers held
  ghost predicate SameDevice(s: Store, s': Store) {
    s'.first == s.first && s'.zones == s.zones && s'.busy == s.busy && s'.pinned == s.pinned
  }

  lemma ExactIffNoneLost(s: Store)
    requires Inv(s)
    ensures BitsExact(s) <==> Lost(s) == {}
  {
    forall b | IsZone(s, b) && Owned(s, b) ensures InUse(s, b) {
      var p :| IsSlot(s, p) && At(s, p) == b;
    }
    if b :| b in Lost(s) { assert !BitsExact(s); }
    if !BitsExact(s) {
      var b :| IsZone(s, b) && InUse(s, b) != Owned(s, b);
      assert b in Lost(s);
    }
  }

  // ----- allocation -----------------------------------------------------------------

  lemma FreeZoneUnused(s: Store)
    requires Inv(s) && FreeZone(s) != 0
    ensures IsZone(s, FreeZone(s)) && !InUse(s, FreeZone(s)) && FreeZone(s) !in s.busy
    ensures forall p :: IsSlot(s, p) ==> At(s, p) != FreeZone(s)
  {
    FirstZeroIsFirst(s.zmap, 0);
    assert !InUse(s, FreeZone(s));
  }

  // s' puts zone n into slot p
  ghost predicate Plugs(s: Store, s': Store, p: Slot, n: nat) {
    && Shape(s) && Shape(s') && SameDevice(s, s')
    && s'.panicked == s.panicked
    && |s'.inodes| == |s.inodes|
    && IsSlot(s, p) && IsZone(s, n) && n - s.first + 1 < |s.zmap|
    && s'.zmap == s.zmap[n - s.first + 1 := true]
    && At(s', p) == n
    && (forall q :: IsSlot(s, q) && q != p ==> At(s', q) == At(s, q))
  }

  lemma PlugKeepsInv(s: Store, s': Store, p: Slot, n: nat)
    requires Inv(s) && Plugs(s, s', p, n) && At(s, p) == 0 && !InUse(s, n)
    ensures Inv(s') && Lost(s') == Lost(s)
  {
    PlugKeepsSlots(s, s', p, n);
    PlugLosesNone(s, s', p, n);
    forall b | b in s'.busy && IsZone(s', b) ensures InUse(s', b) { assert InUse(s, b); }
  }

  lemma PlugKeepsSlots(s: Store, s': Store, p: Slot, n: nat)
    requires NamedInUse(s) && Injective(s) && Plugs(s, s', p, n) && At(s, p) == 0 && !InUse(s, n)
    ensures NamedInUse(s') && Injective(s')
  {
    PlugKeepsNamed(s, s', p, n);
    forall q | IsSlot(s', q)
      ensures IsSlot(s, q) && (q == p || At(s', q) == At(s, q)) && At(s, q) != n
    {}
  }

  lemma PlugKeepsNamed(s: Store, s': Store, p: Slot, n: nat)
    requires NamedInUse(s) && Plugs(s, s', p, n) && At(s, p) == 0
    ensures NamedInUse(s')
  {
    forall q | IsSlot(s', q) && At(s', q) != 0
      ensures IsZone(s', At(s', q)) && InUse(s', At(s', q))
    {
      assert IsSlot(s, q) && (q == p || At(s', q) == At(s, q));
    }
  }

  lemma PlugLosesNone(s: Store, s': Store, p: Slot, n: nat)
    requires Plugs(s, s', p, n) && At(s, p) == 0 && !InUse(s, n)
    ensures Lost(s') == Lost(s)
  {
    assert Owned(s', n) by { assert IsSlot(s', p); }
    forall b | IsZone(s, b) && b != n
      ensures b in Lost(s') <==> b in Lost(s)
    {
      PlugOwns(s, s', p, n, b);
    }
  }

  lemma PlugOwns(s: Store, s': Store, p: Slot, n: nat, b: int)
    requires Plugs(s, s', p, n) && At(s, p) == 0 && IsZone(s, b) && b != n
    ensures Owned(s', b) == Owned(s, b)
  {
    if Owned(s, b) { var q :| IsSlot(s, q) && At(s, q) == b; assert IsSlot(s', q) && At(s', q) == b; }
    if Owned(s', b) { var q :| IsSlot(s', q) && At(s', q) == b; assert IsSlot(s, q) && At(s, q) == b; }
  }
}
