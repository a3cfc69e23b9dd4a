/** create_block called by several tasks at once. A call sleeps in bread, before it looks at a
    slot, and in the getblk of new_block, between taking a zone and storing its number; what it
    does between two sleeps is one step. */
module CreateCalls {
  import opened FileStore
  import opened FileOwnership
  import opened FileCreate

  // ----- the slots a call goes through ----------------------------------------------

  function Depth(block: nat): nat { if block < 7 then 1 else if block - 7 < ENTRIES then 2 else 3 }

  // the slot that a call for a block number looks at in round l
  function SlotOf(i: nat, block: nat, l: nat): Slot {
    if block < 7 then Direct(i, block)
    else if block - 7 < ENTRIES then
      if l == 0 then Direct(i, 7) else Single(i, block - 7)
    else
      var k := block - 7 - ENTRIES;
      if l == 0 then Direct(i, 8) else if l == 1 then Double(i, k / ENTRIES) else Leaf(i, k / ENTRIES, k % ENTRIES)
  }

  function Index(p: Slot): nat
    requires !p.Direct?
  {
    if p.Double? then p.j else p.k
  }

  lemma SlotsOfCall(i: nat, block: nat, l: nat, s: Store)
    requires i < |s.inodes| && block < MAX_BLOCKS && l < Depth(block)
    ensures IsSlot(s, SlotOf(i, block, l)) && (SlotOf(i, block, l).Direct? <==> l == 0)
    ensures l > 0 ==> Parent(SlotOf(i, block, l)) == SlotOf(i, block, l - 1)
    ensures l + 1 == Depth(block) ==> SlotOf(i, block, l) == DataSlot(i, block)
  {}

  // ----- the steps ------------------------------------------------------------------

  /** A call in round l, whose slot lies in block h (0 for the inode itself): about to look at it,
      or asleep with a zone taken for it. At the end it returns a block number, or 0. */
  datatype Call =
    | Looking(i: nat, block: nat, l: nat, h: nat)
    | Filling(i: nat, block: nat, l: nat, h: nat, n: nat)
    | Done(b: nat)

  datatype System = System(s: Store, calls: map<nat, Call>)

  datatype Action = Start(id: nat, i: nat, block: nat) | Look(id: nat) | Fill(id: nat)

  // what is stored in slot p, if it lies in block h
  function CellAt(s: Store, p: Slot, h: nat): nat { if p.Direct? then Zone(s, p.i, p.k) else Pointer(s, h, Index(p)) }

  // the first half of new_block: the bit of a free zone is set
  function MarkZone(s: Store): Store {
    var j := FirstZero(s.zmap, 0);
    if j == |s.zmap| then s else s.(zmap := s.zmap[j := true])
  }

  // the second half, and the store of its result
  function FillCell(s: Store, p: Slot, h: nat, n: nat): Store {
    if n in s.busy then s.(panicked := true)
    else
      var z := if n < |s.disk| then s.(disk := s.disk[n := ZeroBlock()]) else s;
      if p.Direct? then SetZone(z, p.i, p.k, n) else SetPointer(z, h, Index(p), n)
  }

  // the call goes on with the block that its slot names
  function Advance(i: nat, block: nat, l: nat, b: nat): Call {
    if b == 0 || l + 1 >= Depth(block) then Done(b) else Looking(i, block, l + 1, b)
  }

  // an action that is not possible changes nothing
  function Next(y: System, a: Action): System {
    match a
    case Start(id, i, block) =>
      if (id in y.calls && !y.calls[id].Done?) || i >= |y.s.inodes| || block >= MAX_BLOCKS then y
      else y.(calls := y.calls[id := Looking(i, block, 0, 0)])
    case Look(id) =>
      if id !in y.calls || !y.calls[id].Looking? then y else LookStep(y, id, y.calls[id])
    case Fill(id) =>
      if id !in y.calls || !y.calls[id].Filling? then y else FillStep(y, id, y.calls[id])
  }

  function LookStep(y: System, id: nat, c: Call): System
    requires c.Looking?
  {
    var e := CellAt(y.s, SlotOf(c.i, c.block, c.l), c.h);
    if e != 0 then y.(calls := y.calls[id := Advance(c.i, c.block, c.l, e)])
    else if FreeZone(y.s) == 0 then System(MarkZone(y.s), y.calls[id := Done(0)])
    else System(MarkZone(y.s), y.calls[id := Filling(c.i, c.block, c.l, c.h, FreeZone(y.s))])
  }

  function FillStep(y: System, id: nat, c: Call): System
    requires c.Filling?
  {
    System(FillCell(y.s, SlotOf(c.i, c.block, c.l), c.h, c.n), y.calls[id := Advance(c.i, c.block, c.l, c.n)])
  }

  function Run(y: System, actions: seq<Action>): System
    decreases |actions|
  {
    if actions == [] then y else Run(Next(y, actions[0]), actions[1..])
  }

  // ----- what a fill does to the slots ----------------------------------------------

  // the zone of the inode through which a slot is reached
  function Root(q: Slot): nat { match q case Direct(_, k) => k case Single(_, _) => 7 case _ => 8 }

  // q is p, or lies in a block that is reached through p
  predicate Under(p: Slot, q: Slot) {
    q == p || (q.i == p.i &&
               match p
               case Direct(_, k) => !q.Direct? && Root(q) == k
               case Double(_, j) => q.Leaf? && q.j == j
               case _ => false)
  }

  // b holds slot q, or the slot that names the holder
  predicate Holds(s: Store, b: nat, q: Slot) { !q.Direct? && (b == Holder(s, q) || b == Zone(s, q.i, Root(q))) }

  // only the blocks that hold a slot matter to it
  lemma SlotKept(s: Store, s': Store, q: Slot)
    requires |s'.disk| == |s.disk| && |s'.inodes| == |s.inodes| && Zone(s', q.i, Root(q)) == Zone(s, q.i, Root(q))
    requires forall b :: 0 < b < |s.disk| && Holds(s, b, q) ==> s'.disk[b] == s.disk[b]
    ensures At(s', q) == At(s, q)
  {}

  lemma HoldersOwned(s: Store, b: nat, q: Slot)
    requires IsSlot(s, q) && Holds(s, b, q)
    ensures Owned(s, b)
  {
    assert IsSlot(s, Parent(q)) && At(s, Parent(q)) == Holder(s, q);
    assert IsSlot(s, Direct(q.i, Root(q))) && At(s, Direct(q.i, Root(q))) == Zone(s, q.i, Root(q));
  }

  // zone n, named by no slot and held by nobody, is stored in slot p in block h
  ghost predicate CanFill(s: Store, p: Slot, h: nat, n: nat) {
    && Inv(s) && IsSlot(s, p) && (p.Direct? || (IsZone(s, h) && n != h))
    && IsZone(s, n) && !Owned(s, n) && n !in s.busy
  }

  // s' is s with zone n stored in slot p in block h
  ghost predicate Stored(s: Store, s': Store, p: Slot, h: nat, n: nat) {
    && SameDevice(s, s') && s'.panicked == s.panicked && s'.zmap == s.zmap
    && |s'.inodes| == |s.inodes| && |s'.disk| == |s.disk| && 0 < n < |s.disk| && s'.disk[n] == ZeroBlock()
    && (forall b :: 0 <= b < |s.disk| && b != n && (p.Direct? || b != h) ==> s'.disk[b] == s.disk[b])
    && (!p.Direct? ==> 0 < h < |s.disk| && s'.disk[h] == SetEntry(s.disk[h], Index(p), n))
    && (forall i, k :: 0 <= i < |s.inodes| && 0 <= k < 9 ==>
          Zone(s', i, k) == if p == Direct(i, k) then n else Zone(s, i, k))
  }

  lemma FillStores(s: Store, p: Slot, h: nat, n: nat)
    requires CanFill(s, p, h, n)
    ensures Shape(FillCell(s, p, h, n)) && Stored(s, FillCell(s, p, h, n), p, h, n)
  {}

  // a slot that is not reached through the one filled
  lemma OtherSlotKept(s: Store, s': Store, p: Slot, h: nat, n: nat, q: Slot)
    requires CanFill(s, p, h, n) && Stored(s, s', p, h, n) && IsSlot(s, q)
    requires !p.Direct? ==> !Holds(s, h, q)
    requires p.Direct? ==> !Under(p, q)
    ensures At(s', q) == At(s, q)
  {
    forall b | 0 < b < |s.disk| && Holds(s, b, q) ensures s'.disk[b] == s.disk[b] { HoldersOwned(s, b, q); }
    SlotKept(s, s', q);
  }

  // an inode's zone is filled
  lemma FieldFilled(s: Store, s': Store, p: Slot, n: nat, q: Slot)
    requires CanFill(s, p, 0, n) && Stored(s, s', p, 0, n) && p.Direct? && IsSlot(s, q)
    ensures At(s', q) == if q == p then n else if Under(p, q) then 0 else At(s, q)
  {
    if !Under(p, q) { OtherSlotKept(s, s', p, 0, n, q); }
  }

  // an entry is filled, of a block that nothing names
  lemma OrphanFilled(s: Store, s': Store, p: Slot, h: nat, n: nat, q: Slot)
    requires CanFill(s, p, h, n) && Stored(s, s', p, h, n) && !p.Direct? && !Owned(s, h) && IsSlot(s, q)
    ensures At(s', q) == At(s, q)
  {
    if Holds(s, h, q) { HoldersOwned(s, h, q); }
    OtherSlotKept(s, s', p, h, n, q);
  }

  // an entry is filled, of the block that its parent names
  lemma EntryFilled(s: Store, s': Store, p: Slot, h: nat, n: nat, q: Slot)
    requires CanFill(s, p, h, n) && Stored(s, s', p, h, n) && !p.Direct? && Holder(s, p) == h && IsSlot(s, q)
    ensures At(s', q) == if q == p then n else if Under(p, q) then 0 else At(s, q)
  {
    if !Holds(s, h, q) { OtherSlotKept(s, s', p, h, n, q); } else { HeldFilled(s, s', p, h, n, q); }
  }

  lemma HeldFilled(s: Store, s': Store, p: Slot, h: nat, n: nat, q: Slot)
    requires CanFill(s, p, h, n) && Stored(s, s', p, h, n) && !p.Direct? && Holder(s, p) == h && IsSlot(s, q)
    requires Holds(s, h, q)
    ensures At(s', q) == if q == p then n else if Under(p, q) then 0 else At(s, q)
  {
    assert IsSlot(s, Parent(p)) && At(s, Parent(p)) == h;
    assert IsSlot(s, Parent(q)) && At(s, Parent(q)) == Holder(s, q);
    assert IsSlot(s, Direct(q.i, Root(q))) && At(s, Direct(q.i, Root(q))) == Zone(s, q.i, Root(q));
    EntryOfSet(s.disk[h], Index(p), n, Index(q));
    if q.Leaf? { EntryOfSet(s.disk[h], Index(p), n, q.j); }
  }

  // ----- what a fill does to ownership ----------------------------------------------

  // the block of the slot is still the one its parent names
  predicate Attached(s: Store, p: Slot, h: nat) { if p.Direct? then h == 0 else h != 0 && Holder(s, p) == h }

  ghost predicate NamedUnder(s: Store, p: Slot, b: int) { exists q :: IsSlot(s, q) && Under(p, q) && At(s, q) == b }

  /** The blocks that slot p and those reached through it name. */
  ghost function Reached(s: Store, p: Slot): (blocks: set<int>)
    ensures forall b :: b in blocks <==> IsZone(s, b) && NamedUnder(s, p, b)
  {
    set b | s.first <= b < s.zones && NamedUnder(s, p, b)
  }

  // s' names n in slot p and nothing under it, and is otherwise as s
  ghost predicate Replaces(s: Store, s': Store, p: Slot, n: nat) {
    && Shape(s') && SameDevice(s, s') && s'.panicked == s.panicked && s'.zmap == s.zmap && |s'.inodes| == |s.inodes|
    && (forall q {:trigger At(s', q)} :: IsSlot(s, q) ==>
          At(s', q) == if q == p then n else if Under(p, q) then 0 else At(s, q))
  }

  lemma AttachedReplaces(s: Store, p: Slot, h: nat, n: nat)
    requires CanFill(s, p, h, n) && Attached(s, p, h)
    ensures Replaces(s, FillCell(s, p, h, n), p, n)
  {
    var s' := FillCell(s, p, h, n);
    FillStores(s, p, h, n);
    forall q | IsSlot(s, q)
      ensures At(s', q) == if q == p then n else if Under(p, q) then 0 else At(s, q)
    {
      if p.Direct? { FieldFilled(s, s', p, n, q); } else { EntryFilled(s, s', p, h, n, q); }
    }
  }

  lemma ReplacesKeeps(s: Store, s': Store, p: Slot, n: nat)
    requires Inv(s) && IsSlot(s, p) && Replaces(s, s', p, n) && IsZone(s, n) && n in Lost(s)
    ensures Inv(s')
  {
    forall q | IsSlot(s', q) && At(s', q) != 0
      ensures IsSlot(s, q) && (q == p || (At(s', q) == At(s, q) && At(s, q) != n))
    {
      assert At(s, q) == n ==> Owned(s, n);
    }
  }

  // who owns a block afterwards
  lemma ReplacesOwned(s: Store, s': Store, p: Slot, n: nat, b: int)
    requires Inv(s) && IsSlot(s, p) && Replaces(s, s', p, n) && IsZone(s, n) && IsZone(s, b)
    ensures Owned(s', b) <==> b == n || (Owned(s, b) && b !in Reached(s, p))
  {
    if b == n { assert IsSlot(s', p) && At(s', p) == n; }
    if b != n && Owned(s', b) {
      var q :| IsSlot(s', q) && At(s', q) == b;
      assert IsSlot(s, q) && At(s, q) == b && !Under(p, q);
    }
    if Owned(s, b) && b !in Reached(s, p) {
      var q :| IsSlot(s, q) && At(s, q) == b;
      assert IsSlot(s', q) && !Under(p, q);
    }
  }

  lemma ReplacesLoses(s: Store, s': Store, p: Slot, n: nat)
    requires Inv(s) && IsSlot(s, p) && Replaces(s, s', p, n) && IsZone(s, n) && n in Lost(s)
    ensures Lost(s') == Lost(s) - {n as int} + Reached(s, p)
  {
    forall b | IsZone(s, b)
      ensures b in Lost(s') <==> b in Lost(s) - {n as int} + Reached(s, p)
    {
      ReplacesOwned(s, s', p, n, b);
      if b in Reached(s, p) {
        var q :| IsSlot(s, q) && Under(p, q) && At(s, q) == b;
        assert Owned(s, b) && InUse(s, b);
      }
    }
  }

  // an empty slot reaches nothing
  lemma EmptyReachesNothing(s: Store, p: Slot)
    requires Inv(s) && IsSlot(s, p)
    ensures Reached(s, p) == {} <==> At(s, p) == 0
  {
    if At(s, p) != 0 { assert Under(p, p) && At(s, p) as int in Reached(s, p); }
    forall q | At(s, p) == 0 && IsSlot(s, q) && Under(p, q) ensures At(s, q) == 0 {}
  }

  /** A zone stored where it belongs is owned from then on; what the slot named before is lost,
      with everything reached through it. */
  lemma FillAttached(s: Store, p: Slot, h: nat, n: nat)
    requires CanFill(s, p, h, n) && Attached(s, p, h) && n in Lost(s)
    ensures var s' := FillCell(s, p, h, n);
            Inv(s') && Replaces(s, s', p, n) && Lost(s') == Lost(s) - {n as int} + Reached(s, p)
  {
    AttachedReplaces(s, p, h, n);
    ReplacesKeeps(s, FillCell(s, p, h, n), p, n);
    ReplacesLoses(s, FillCell(s, p, h, n), p, n);
  }

  /** A zone stored in a block that no slot names any more is itself lost. */
  lemma FillOrphan(s: Store, p: Slot, h: nat, n: nat)
    requires CanFill(s, p, h, n) && !p.Direct? && !Owned(s, h)
    ensures var s' := FillCell(s, p, h, n);
            && Inv(s') && Lost(s') == Lost(s) && SameDevice(s, s') && |s'.inodes| == |s.inodes|
            && (forall q {:trigger At(s', q)} :: IsSlot(s, q) ==> At(s', q) == At(s, q))
  {
    var s' := FillCell(s, p, h, n);
    FillStores(s, p, h, n);
    forall q | IsSlot(s, q) ensures At(s', q) == At(s, q) { OrphanFilled(s, s', p, h, n, q); }
    SameSlotsLoseNone(s, s');
  }

  lemma SameOwners(s: Store, s': Store)
    requires |s'.inodes| == |s.inodes| && forall q {:trigger At(s', q)} :: IsSlot(s, q) ==> At(s', q) == At(s, q)
    ensures forall b :: Owned(s', b) == Owned(s, b)
  {
    forall b ensures Owned(s', b) == Owned(s, b) {
      if Owned(s, b) { var q :| IsSlot(s, q) && At(s, q) == b; assert IsSlot(s', q) && At(s', q) == b; }
      if Owned(s', b) { var q :| IsSlot(s', q) && At(s', q) == b; assert IsSlot(s, q) && At(s, q) == b; }
    }
  }

  // the bits after a zone has been taken
  lemma MarkBits(s: Store)
    requires Inv(s)
    ensures var s', n := MarkZone(s), FreeZone(s);
            && Shape(s') && s' == s.(zmap := s'.zmap) && s'.zmap[0]
            && (forall b :: IsZone(s, b) ==> InUse(s', b) == (InUse(s, b) || b == n))
            && (n == 0 ==> Full(s'))
            && (n != 0 ==> IsZone(s, n) && !InUse(s, n))
  {
    FirstZeroIsFirst(s.zmap, 0);
  }

  /** Taking a zone: until its number is stored, it is in use without an owner. */
  lemma MarkKeeps(s: Store)
    requires Inv(s)
    ensures var s', n := MarkZone(s), FreeZone(s);
            && Inv(s') && SameDevice(s, s') && s'.inodes == s.inodes && s'.disk == s.disk
            && (forall q {:trigger At(s', q)} :: At(s', q) == At(s, q))
            && (forall b :: IsZone(s, b) ==> Owned(s', b) == Owned(s, b) && (InUse(s, b) ==> InUse(s', b) && b != n))
            && (n == 0 ==> Lost(s') == Lost(s) && Full(s'))
            && (n != 0 ==> IsZone(s, n) && !Owned(s, n) && n !in s.busy && n !in Lost(s))
            && (n != 0 ==> Lost(s') == Lost(s) + {n as int})
  {
    var s', n := MarkZone(s), FreeZone(s);
    MarkBits(s);
    forall q ensures At(s', q) == At(s, q) && (IsSlot(s', q) <==> IsSlot(s, q)) {}
    SameOwners(s, s');
    if n != 0 { FreeZoneUnused(s); }
  }

  // ----- the invariant --------------------------------------------------------------

  // the zones taken whose numbers are not stored yet
  ghost function Taken(calls: map<nat, Call>): (taken: set<int>)
    ensures forall b :: b in taken <==> exists id :: id in calls && calls[id].Filling? && calls[id].n == b
  {
    set id | id in calls && calls[id].Filling? :: calls[id].n as int
  }

  /** What is in use without an owner and will not get one: a store's lost zones but those just
      taken. */
  ghost function Waste(y: System): set<int> { Lost(y.s) - Taken(y.calls) }

  // below a block that no slot names a call finds only lost blocks
  ghost predicate Sunk(s: Store, taken: set<int>, i: nat, block: nat, l: nat, h: nat)
    decreases 3 - l
  {
    0 < l < Depth(block) && !Owned(s, h) ==>
      var c := Pointer(s, h, Index(SlotOf(i, block, l)));
      c != 0 ==> c in Lost(s) && c !in taken && Sunk(s, taken, i, block, l + 1, c)
  }

  // where a call stands: its block is the one its parent names, or no slot names it any more
  ghost predicate PlaceOk(s: Store, taken: set<int>, i: nat, block: nat, l: nat, h: nat) {
    && i < |s.inodes| && block < MAX_BLOCKS && l < Depth(block)
    && (l == 0 ==> h == 0)
    && (l > 0 ==>
          && IsZone(s, h) && InUse(s, h) && h !in taken
          && (Owned(s, h) ==> At(s, SlotOf(i, block, l - 1)) == h))
    && Sunk(s, taken, i, block, l, h)
  }

  ghost predicate CallOk(s: Store, taken: set<int>, c: Call) {
    match c
    case Looking(i, block, l, h) => PlaceOk(s, taken, i, block, l, h)
    case Filling(i, block, l, h, n) => PlaceOk(s, taken, i, block, l, h) && n in Lost(s) && n !in s.busy
    case Done(_) => true
  }

  ghost predicate CallsOk(s: Store, taken: set<int>, calls: map<nat, Call>) {
    forall id :: id in calls ==> CallOk(s, taken, calls[id])
  }

  // every call has a zone of its own
  ghost predicate Distinct(calls: map<nat, Call>) {
    forall id, id2 :: id in calls && id2 in calls && id != id2 && calls[id].Filling? && calls[id2].Filling? ==>
      calls[id].n != calls[id2].n
  }

  ghost predicate SystemInv(y: System) {
    Inv(y.s) && CallsOk(y.s, Taken(y.calls), y.calls) && Distinct(y.calls)
  }

  predicate IsFilling(y: System, id: nat) { id in y.calls && y.calls[id].Filling? }

  // an attached place; any other is not owned
  lemma PlaceAttached(s: Store, taken: set<int>, i: nat, block: nat, l: nat, h: nat)
    requires Inv(s) && PlaceOk(s, taken, i, block, l, h)
    ensures IsSlot(s, SlotOf(i, block, l))
    ensures Attached(s, SlotOf(i, block, l), h) <==> l == 0 || Owned(s, h)
    ensures Attached(s, SlotOf(i, block, l), h) ==> CellAt(s, SlotOf(i, block, l), h) == At(s, SlotOf(i, block, l))
  {
    var p := SlotOf(i, block, l);
    SlotsOfCall(i, block, l, s);
    if l > 0 {
      SlotsOfCall(i, block, l - 1, s);
      assert At(s, Parent(p)) == Holder(s, p) && IsSlot(s, Parent(p));
    }
  }

  // a call reads a slot and goes on
  lemma AdvanceOk(s: Store, taken: set<int>, i: nat, block: nat, l: nat, h: nat)
    requires Inv(s) && PlaceOk(s, taken, i, block, l, h) && forall b :: b in taken ==> b in Lost(s)
    ensures var b := CellAt(s, SlotOf(i, block, l), h);
            b != 0 ==> CallOk(s, taken, Advance(i, block, l, b))
  {
    var p := SlotOf(i, block, l);
    PlaceAttached(s, taken, i, block, l, h);
    SlotsOfCall(i, block, l, s);
    var b := CellAt(s, p, h);
    if b != 0 && Attached(s, p, h) { assert Owned(s, b); }
  }

  // ----- the steps keep it ----------------------------------------------------------

  // lost blocks stay so, and keep their entries but for one that may have become zone n
  ghost predicate LostKept(s: Store, s': Store, taken: set<int>, taken': set<int>, n: nat) {
    && (forall b :: b in Lost(s) && b !in taken ==> b in Lost(s') && b !in taken')
    && (forall b: nat, j: nat {:trigger Pointer(s', b, j)} :: b in Lost(s) && b !in taken && j < ENTRIES ==>
          Pointer(s', b, j) == Pointer(s, b, j) ||
          (Pointer(s', b, j) == n && n in Lost(s') && n !in taken' &&
           forall k :: 0 <= k < ENTRIES ==> Pointer(s', n, k) == 0))
  }

  lemma IndexBound(i: nat, block: nat, l: nat)
    requires block < MAX_BLOCKS && 0 < l < Depth(block)
    ensures !SlotOf(i, block, l).Direct? && Index(SlotOf(i, block, l)) < ENTRIES
  {}

  // a place that nothing names, after a step
  lemma {:induction false} SunkKept(s: Store, s': Store, taken: set<int>, taken': set<int>, n: nat, i: nat, block: nat,
        l: nat, h: nat)
    requires LostKept(s, s', taken, taken', n) && Sunk(s, taken, i, block, l, h) && block < MAX_BLOCKS
    requires h in Lost(s) && h !in taken
    ensures Sunk(s', taken', i, block, l, h)
    decreases 3 - l
  {
    if 0 < l < Depth(block) && !Owned(s', h) {
      IndexBound(i, block, l);
      var j := Index(SlotOf(i, block, l));
      var c, c' := Pointer(s, h, j), Pointer(s', h, j);
      if c' == c {
        if c != 0 { SunkKept(s, s', taken, taken', n, i, block, l + 1, c); }
      } else if l + 1 < Depth(block) {
        IndexBound(i, block, l + 1);
      }
    }
  }

  // a place below the slot that has been filled is not reached any more
  lemma {:induction false} SunkFresh(s: Store, s': Store, taken': set<int>, p: Slot, n: nat, i: nat, block: nat, l: nat,
        h: nat)
    requires Inv(s) && IsSlot(s, p) && Reached(s, p) <= Lost(s') && Reached(s, p) !! taken'
    requires forall b :: 0 < b < |s.disk| && b in Reached(s, p) ==> b < |s'.disk| && s'.disk[b] == s.disk[b]
    requires i < |s.inodes| && block < MAX_BLOCKS && 0 < l <= Depth(block)
    requires h != 0 && At(s, SlotOf(i, block, l - 1)) == h && Under(p, SlotOf(i, block, l - 1))
    ensures Sunk(s', taken', i, block, l, h)
    decreases 3 - l
  {
    SlotsOfCall(i, block, l - 1, s);
    assert h in Reached(s, p);
    if l < Depth(block) {
      SlotsOfCall(i, block, l, s);
      var q := SlotOf(i, block, l);
      assert Holder(s, q) == h && At(s, q) == Pointer(s, h, Index(q)) == Pointer(s', h, Index(q));
      if At(s, q) != 0 {
        assert NamedUnder(s, p, At(s, q));
        SunkFresh(s, s', taken', p, n, i, block, l + 1, At(s, q));
      }
    }
  }

  // places after a zone has been taken
  lemma PlaceMarked(s: Store, taken: set<int>, taken': set<int>, i: nat, block: nat, l: nat, h: nat)
    requires Inv(s) && PlaceOk(s, taken, i, block, l, h)
    requires taken' == taken || (FreeZone(s) != 0 && taken' == taken + {FreeZone(s) as int})
    ensures PlaceOk(MarkZone(s), taken', i, block, l, h)
  {
    var s' := MarkZone(s);
    MarkKeeps(s);
    if l > 0 && !Owned(s, h) {
      assert LostKept(s, s', taken, taken', 0);
      SunkKept(s, s', taken, taken', 0, i, block, l, h);
    }
  }

  // places after a zone has been stored in a block that no slot names
  lemma PlaceOrphan(s: Store, taken: set<int>, p: Slot, h0: nat, n: nat, i: nat, block: nat, l: nat, h: nat)
    requires CanFill(s, p, h0, n) && !p.Direct? && !Owned(s, h0) && n in taken && n in Lost(s)
    requires PlaceOk(s, taken, i, block, l, h)
    ensures PlaceOk(FillCell(s, p, h0, n), taken - {n as int}, i, block, l, h)
  {
    var s', taken' := FillCell(s, p, h0, n), taken - {n as int};
    FillStores(s, p, h0, n);
    FillOrphan(s, p, h0, n);
    SameOwners(s, s');
    if l > 0 {
      SlotsOfCall(i, block, l - 1, s);
      if !Owned(s, h) {
        OrphanKeepsLost(s, s', taken, p, h0, n);
        SunkKept(s, s', taken, taken', n, i, block, l, h);
      }
    }
  }

  lemma OrphanKeepsLost(s: Store, s': Store, taken: set<int>, p: Slot, h0: nat, n: nat)
    requires CanFill(s, p, h0, n) && Stored(s, s', p, h0, n) && !p.Direct? && n in taken && n in Lost(s)
    requires Lost(s') == Lost(s)
    ensures LostKept(s, s', taken, taken - {n as int}, n)
  {
    forall b: nat, j: nat | b in Lost(s) && b !in taken && j < ENTRIES
      ensures Pointer(s', b, j) == Pointer(s, b, j) || Pointer(s', b, j) == n
    {
      if b == h0 { EntryOfSet(s.disk[h0], Index(p), n, j); }
    }
  }

  // places that nothing names after a zone has been stored where it belongs
  lemma FilledSunk(s: Store, s': Store, taken: set<int>, p: Slot, h0: nat, n: nat, i: nat, block: nat, l: nat, h: nat)
    requires CanFill(s, p, h0, n) && Attached(s, p, h0) && n in taken && n in Lost(s) && taken <= Lost(s)
    requires PlaceOk(s, taken, i, block, l, h) && l > 0 && Stored(s, s', p, h0, n)
    requires Lost(s') == Lost(s) - {n as int} + Reached(s, p)
    requires Owned(s, h) ==> h in Reached(s, p)
    ensures Sunk(s', taken - {n as int}, i, block, l, h)
  {
    var taken' := taken - {n as int};
    SlotsOfCall(i, block, l - 1, s);
    if Owned(s, h) {
      NamedOnce(s, p, SlotOf(i, block, l - 1), h);
      ReachedKept(s, s', p, h0, n);
      ReachedNotLost(s, p);
      SunkFresh(s, s', taken', p, n, i, block, l, h);
    } else {
      if !p.Direct? { HoldersOwned(s, h0, p); }
      assert LostKept(s, s', taken, taken', 0);
      SunkKept(s, s', taken, taken', 0, i, block, l, h);
    }
  }

  lemma ReachedNotLost(s: Store, p: Slot)
    ensures Reached(s, p) !! Lost(s)
  {
    forall b | b in Reached(s, p) ensures b !in Lost(s) {
      var q :| IsSlot(s, q) && Under(p, q) && At(s, q) == b;
      assert Owned(s, b);
    }
  }

  // places after a zone has been stored where it belongs
  lemma PlaceFilled(s: Store, taken: set<int>, p: Slot, h0: nat, n: nat, i: nat, block: nat, l: nat, h: nat)
    requires CanFill(s, p, h0, n) && Attached(s, p, h0) && n in taken && n in Lost(s) && taken <= Lost(s)
    requires PlaceOk(s, taken, i, block, l, h)
    ensures PlaceOk(FillCell(s, p, h0, n), taken - {n as int}, i, block, l, h)
  {
    var s' := FillCell(s, p, h0, n);
    FillStores(s, p, h0, n);
    FillAttached(s, p, h0, n);
    if l > 0 {
      SlotsOfCall(i, block, l - 1, s);
      ReplacesOwned(s, s', p, n, h);
      assert Under(p, SlotOf(i, block, l - 1)) && At(s, SlotOf(i, block, l - 1)) == h ==> NamedUnder(s, p, h);
      if !Owned(s', h) { FilledSunk(s, s', taken, p, h0, n, i, block, l, h); }
    }
  }

  // a block reached through p is named under it
  lemma NamedOnce(s: Store, p: Slot, q: Slot, b: nat)
    requires Inv(s) && IsSlot(s, q) && b != 0 && At(s, q) == b && b in Reached(s, p)
    ensures Under(p, q)
  {
    var r :| IsSlot(s, r) && Under(p, r) && At(s, r) == b;
    assert r == q;
  }

  // the blocks reached through a slot are not touched
  lemma ReachedKept(s: Store, s': Store, p: Slot, h0: nat, n: nat)
    requires CanFill(s, p, h0, n) && Attached(s, p, h0) && Stored(s, s', p, h0, n)
    ensures forall b :: 0 < b < |s.disk| && b in Reached(s, p) ==> s'.disk[b] == s.disk[b]
  {
    forall b | 0 < b < |s.disk| && b in Reached(s, p) ensures s'.disk[b] == s.disk[b] {
      var q :| IsSlot(s, q) && Under(p, q) && At(s, q) == b;
      assert b != n;
      if !p.Direct? { assert IsSlot(s, Parent(p)) && At(s, Parent(p)) == h0 && Parent(p) != q; }
    }
  }

  // the taken zones after call id has become c
  lemma TakenNow(calls: map<nat, Call>, id: nat, c: Call)
    requires Distinct(calls) && (c.Filling? ==> c.n !in Taken(calls))
    ensures Distinct(calls[id := c])
    ensures Taken(calls[id := c]) ==
            Taken(calls) - (if id in calls && calls[id].Filling? then {calls[id].n as int} else {}) +
            (if c.Filling? then {c.n as int} else {})
  {
    var now := calls[id := c];
    forall b ensures b in Taken(now) <==>
        (b in Taken(calls) && !(id in calls && calls[id].Filling? && calls[id].n == b)) || (c.Filling? && c.n == b)
    {
      if id2 :| id2 in calls && calls[id2].Filling? && calls[id2].n == b && id2 != id { assert now[id2].n == b; }
      if c.Filling? && c.n == b { assert now[id].n == b; }
    }
    forall x | x in calls && calls[x].Filling? ensures calls[x].n as int in Taken(calls) {}
  }

  lemma InvFrom(v: System, taken: set<int>)
    requires Inv(v.s) && CallsOk(v.s, taken, v.calls) && Taken(v.calls) == taken && Distinct(v.calls)
    ensures SystemInv(v)
  {}

  lemma TakenLost(y: System)
    requires SystemInv(y)
    ensures forall b :: b in Taken(y.calls) ==> b in Lost(y.s)
  {
    forall b | b in Taken(y.calls) ensures b in Lost(y.s) {
      var id :| id in y.calls && y.calls[id].Filling? && y.calls[id].n == b;
      assert CallOk(y.s, Taken(y.calls), y.calls[id]);
    }
  }

  // a call moves on without taking a zone
  lemma MoveKeeps(y: System, id: nat, c: Call)
    requires SystemInv(y) && !IsFilling(y, id) && !c.Filling? && CallOk(y.s, Taken(y.calls), c)
    ensures SystemInv(y.(calls := y.calls[id := c])) && Waste(y.(calls := y.calls[id := c])) == Waste(y)
  {
    TakenNow(y.calls, id, c);
    CallsSet(y.s, Taken(y.calls), y.calls, id, c);
    assert Taken(y.calls[id := c]) == Taken(y.calls);
  }

  lemma CallsSet(s: Store, taken: set<int>, calls: map<nat, Call>, id: nat, c: Call)
    requires CallsOk(s, taken, calls) && CallOk(s, taken, c)
    ensures CallsOk(s, taken, calls[id := c])
  {}

  // the call id reads its slot and goes on
  lemma ReadKeeps(y: System, id: nat)
    requires SystemInv(y) && id in y.calls && y.calls[id].Looking?
    requires CellAt(y.s, SlotOf(y.calls[id].i, y.calls[id].block, y.calls[id].l), y.calls[id].h) != 0
    ensures SystemInv(Next(y, Look(id))) && Waste(Next(y, Look(id))) == Waste(y)
  {
    var c := y.calls[id];
    var e := CellAt(y.s, SlotOf(c.i, c.block, c.l), c.h);
    TakenLost(y);
    assert CallOk(y.s, Taken(y.calls), c);
    AdvanceOk(y.s, Taken(y.calls), c.i, c.block, c.l, c.h);
    MoveKeeps(y, id, Advance(c.i, c.block, c.l, e));
  }

  // a call's standing after a zone has been taken
  lemma CallMarked(s: Store, taken: set<int>, taken': set<int>, c: Call)
    requires Inv(s) && CallOk(s, taken, c)
    requires taken' == taken || (FreeZone(s) != 0 && taken' == taken + {FreeZone(s) as int})
    ensures CallOk(MarkZone(s), taken', c)
  {
    MarkKeeps(s);
    if !c.Done? { PlaceMarked(s, taken, taken', c.i, c.block, c.l, c.h); }
  }

  // the calls' standing, with the new zone taken by call id or with none to take
  lemma TakeKeepsCalls(y: System, id: nat, taken': set<int>)
    requires SystemInv(y) && id in y.calls && y.calls[id].Looking?
    requires CellAt(y.s, SlotOf(y.calls[id].i, y.calls[id].block, y.calls[id].l), y.calls[id].h) == 0
    requires taken' == Taken(y.calls) + if FreeZone(y.s) == 0 then {} else {FreeZone(y.s) as int}
    ensures CallsOk(MarkZone(y.s), taken', Next(y, Look(id)).calls)
  {
    var c, v := y.calls[id], Next(y, Look(id));
    MarkKeeps(y.s);
    assert FreeZone(y.s) == 0 ==> taken' == Taken(y.calls);
    forall x | x in v.calls ensures CallOk(v.s, taken', v.calls[x]) {
      CallMarked(y.s, Taken(y.calls), taken', y.calls[x]);
    }
  }

  // the call id takes a zone, or finds none
  lemma TakeKeeps(y: System, id: nat)
    requires SystemInv(y) && id in y.calls && y.calls[id].Looking?
    requires CellAt(y.s, SlotOf(y.calls[id].i, y.calls[id].block, y.calls[id].l), y.calls[id].h) == 0
    ensures SystemInv(Next(y, Look(id))) && Waste(Next(y, Look(id))) == Waste(y)
  {
    var n, v := FreeZone(y.s), Next(y, Look(id));
    var taken' := Taken(y.calls) + if n == 0 then {} else {n as int};
    MarkKeeps(y.s);
    TakenLost(y);
    TakenNow(y.calls, id, v.calls[id]);
    assert Taken(v.calls) == taken';
    TakeKeepsCalls(y, id, taken');
    InvFrom(v, taken');
    LostLess(Lost(y.s), Taken(y.calls), n);
  }

  lemma LostLess(lost: set<int>, taken: set<int>, n: nat)
    requires n !in lost && taken <= lost
    ensures lost + {n as int} - (taken + {n as int}) == lost - taken && taken + {} == taken
  {}

  // a call's standing after another has stored its zone
  lemma CallFilled(s: Store, taken: set<int>, p: Slot, h0: nat, n: nat, c: Call)
    requires CanFill(s, p, h0, n) && n in taken && n in Lost(s) && taken <= Lost(s) && CallOk(s, taken, c)
    requires Attached(s, p, h0) || (!p.Direct? && !Owned(s, h0))
    requires c.Filling? ==> c.n != n
    ensures CallOk(FillCell(s, p, h0, n), taken - {n as int}, c)
  {
    if Attached(s, p, h0) {
      FillAttached(s, p, h0, n);
      if !c.Done? { PlaceFilled(s, taken, p, h0, n, c.i, c.block, c.l, c.h); }
    } else {
      FillOrphan(s, p, h0, n);
      if !c.Done? { PlaceOrphan(s, taken, p, h0, n, c.i, c.block, c.l, c.h); }
    }
  }

  // what the fill of call id finds
  lemma FillReady(y: System, id: nat)
    requires SystemInv(y) && id in y.calls && y.calls[id].Filling?
    ensures var c := y.calls[id]; var p := SlotOf(c.i, c.block, c.l);
            && CanFill(y.s, p, c.h, c.n) && c.n in Taken(y.calls) && c.n in Lost(y.s) && Taken(y.calls) <= Lost(y.s)
            && (Attached(y.s, p, c.h) || (!p.Direct? && !Owned(y.s, c.h)))
  {
    var c := y.calls[id];
    TakenLost(y);
    assert CallOk(y.s, Taken(y.calls), c);
    PlaceAttached(y.s, Taken(y.calls), c.i, c.block, c.l, c.h);
    SlotsOfCall(c.i, c.block, c.l, y.s);
  }

  /** What a fill wastes: the zone itself when nothing names its block any more, else what the slot
      named before. */
  ghost function Wasted(y: System, a: Action): set<int> {
    if a.Fill? && a.id in y.calls && y.calls[a.id].Filling? then
      var c := y.calls[a.id];
      var p := SlotOf(c.i, c.block, c.l);
      if Attached(y.s, p, c.h) then Reached(y.s, p) else {c.n as int}
    else {}
  }

  // where the call is that has stored its zone
  lemma FilledAdvances(s: Store, s': Store, taken: set<int>, taken': set<int>, c: Call)
    requires c.Filling? && CallOk(s, taken, c) && Inv(s) && Inv(s') && SameDevice(s, s') && s'.zmap == s.zmap
    requires |s'.inodes| == |s.inodes| && c.n !in taken' && IsZone(s, c.n)
    requires s'.disk[c.n] == ZeroBlock() && 0 < c.n < |s'.disk|
    requires Owned(s', c.n) ==> At(s', SlotOf(c.i, c.block, c.l)) == c.n
    ensures CallOk(s', taken', Advance(c.i, c.block, c.l, c.n))
  {
    if c.l + 1 < Depth(c.block) { IndexBound(c.i, c.block, c.l + 1); }
  }

  lemma FillKeepsCalls(y: System, id: nat)
    requires SystemInv(y) && IsFilling(y, id)
    ensures var v := Next(y, Fill(id)); CallsOk(v.s, Taken(y.calls) - {y.calls[id].n as int}, v.calls)
  {
    var c, v, taken := y.calls[id], Next(y, Fill(id)), Taken(y.calls);
    var p := SlotOf(c.i, c.block, c.l);
    FillReady(y, id);
    FillStores(y.s, p, c.h, c.n);
    FilledStore(y.s, p, c.h, c.n);
    FilledAdvances(y.s, v.s, taken, taken - {c.n as int}, c);
    forall x | x in v.calls ensures CallOk(v.s, taken - {c.n as int}, v.calls[x]) {
      if x != id { CallFilled(y.s, taken, p, c.h, c.n, y.calls[x]); }
    }
  }

  lemma FillKeeps(y: System, id: nat)
    requires SystemInv(y) && IsFilling(y, id)
    ensures SystemInv(Next(y, Fill(id))) && Waste(Next(y, Fill(id))) == Waste(y) + Wasted(y, Fill(id))
  {
    var c, v := y.calls[id], Next(y, Fill(id));
    var p := SlotOf(c.i, c.block, c.l);
    var taken' := Taken(y.calls) - {c.n as int};
    FillReady(y, id);
    FilledStore(y.s, p, c.h, c.n);
    TakenNow(y.calls, id, v.calls[id]);
    assert Taken(v.calls) == taken';
    FillKeepsCalls(y, id);
    InvFrom(v, taken');
    WasteLess(Lost(y.s), Taken(y.calls), c.n, Reached(y.s, p));
  }

  lemma WasteLess(lost: set<int>, taken: set<int>, n: nat, reached: set<int>)
    requires n in taken && taken <= lost && reached !! lost
    ensures lost - {n as int} + reached - (taken - {n as int}) == lost - taken + reached
    ensures lost - (taken - {n as int}) == lost - taken + {n as int}
  {}

  // the store a fill leaves
  lemma FilledStore(s: Store, p: Slot, h: nat, n: nat)
    requires CanFill(s, p, h, n) && n in Lost(s) && (Attached(s, p, h) || (!p.Direct? && !Owned(s, h)))
    ensures var s' := FillCell(s, p, h, n);
            && Inv(s') && (Owned(s', n) ==> At(s', p) == n)
            && Lost(s') == (if Attached(s, p, h) then Lost(s) - {n as int} + Reached(s, p) else Lost(s))
            && Reached(s, p) !! Lost(s)
  {
    ReachedNotLost(s, p);
    if Attached(s, p, h) {
      FillAttached(s, p, h, n);
    } else {
      FillOrphan(s, p, h, n);
      SameOwners(s, FillCell(s, p, h, n));
    }
  }

  lemma StartKeeps(y: System, id: nat, i: nat, block: nat)
    requires SystemInv(y)
    ensures SystemInv(Next(y, Start(id, i, block))) && Waste(Next(y, Start(id, i, block))) == Waste(y)
  {
    if !((id in y.calls && !y.calls[id].Done?) || i >= |y.s.inodes| || block >= MAX_BLOCKS) {
      MoveKeeps(y, id, Looking(i, block, 0, 0));
    }
  }

  /** Whatever the interleaving, named zones stay in use and are named once, no panic is reached,
      and what is lost is exactly what the fills waste. */
  lemma NextKeeps(y: System, a: Action)
    requires SystemInv(y)
    ensures SystemInv(Next(y, a)) && Waste(Next(y, a)) == Waste(y) + Wasted(y, a)
  {
    match a
    case Start(id, i, block) => StartKeeps(y, id, i, block);
    case Look(id) =>
      if id in y.calls && y.calls[id].Looking? {
        var c := y.calls[id];
        if CellAt(y.s, SlotOf(c.i, c.block, c.l), c.h) != 0 { ReadKeeps(y, id); } else { TakeKeeps(y, id); }
      }
    case Fill(id) => if id in y.calls && y.calls[id].Filling? { FillKeeps(y, id); }
  }

  // ----- runs -----------------------------------------------------------------------

  ghost function WastedBy(y: System, actions: seq<Action>): set<int>
    decreases |actions|
  {
    if actions == [] then {} else Wasted(y, actions[0]) + WastedBy(Next(y, actions[0]), actions[1..])
  }

  lemma {:induction false} RunKeeps(y: System, actions: seq<Action>)
    requires SystemInv(y)
    ensures SystemInv(Run(y, actions)) && Waste(Run(y, actions)) == Waste(y) + WastedBy(y, actions)
    decreases |actions|
  {
    if actions != [] {
      NextKeeps(y, actions[0]);
      RunKeeps(Next(y, actions[0]), actions[1..]);
    }
  }

  // ----- two calls for one slot -----------------------------------------------------

  // the slot for which call id has taken a zone
  function FillsSlot(y: System, id: nat): Slot
    requires id in y.calls && y.calls[id].Filling?
  {
    SlotOf(y.calls[id].i, y.calls[id].block, y.calls[id].l)
  }

  // call id takes a zone for a slot for which another call has taken one
  ghost predicate Overlaps(y: System, a: Action) {
    a.Look? && a.id in y.calls && y.calls[a.id].Looking? &&
    var c := y.calls[a.id];
    var p := SlotOf(c.i, c.block, c.l);
    CellAt(y.s, p, c.h) == 0 && FreeZone(y.s) != 0 &&
    exists id2 :: IsFilling(y, id2) && id2 != a.id && FillsSlot(y, id2) == p
  }

  ghost predicate EverOverlaps(y: System, actions: seq<Action>)
    decreases |actions|
  {
    actions != [] && (Overlaps(y, actions[0]) || EverOverlaps(Next(y, actions[0]), actions[1..]))
  }

  // the fill of call id will waste something
  ghost predicate Doomed(y: System, id: nat) {
    IsFilling(y, id) &&
    var c := y.calls[id];
    !Attached(y.s, FillsSlot(y, id), c.h) || At(y.s, FillsSlot(y, id)) != 0
  }

  // two calls have taken zones for one slot
  ghost predicate Pair(y: System, id: nat, id2: nat) {
    IsFilling(y, id) && IsFilling(y, id2) && id != id2 && FillsSlot(y, id) == FillsSlot(y, id2)
  }

  // something is wasted, or will be when all calls are done
  ghost predicate Danger(y: System, w0: set<int>) {
    Waste(y) > w0 || (Waste(y) == w0 && (!NoneDoomed(y) || !NoPair(y)))
  }

  // the block of a call that is about to look is the one its parent names
  predicate LooksWell(y: System, id: nat) {
    id in y.calls && y.calls[id].Looking? ==>
      Attached(y.s, SlotOf(y.calls[id].i, y.calls[id].block, y.calls[id].l), y.calls[id].h)
  }

  ghost predicate NoneDoomed(y: System) { forall id :: !Doomed(y, id) }

  ghost predicate NoPair(y: System) { forall id, id2 :: !Pair(y, id, id2) }

  // no fill finds its slot taken
  ghost predicate Proper(y: System) { NoneDoomed(y) && NoPair(y) && forall id :: LooksWell(y, id) }

  // places after a zone has been stored in an empty slot where it belongs
  lemma PlaceAfterFill(s: Store, taken: set<int>, p: Slot, h0: nat, n: nat, i: nat, block: nat, l: nat, h: nat)
    requires CanFill(s, p, h0, n) && Attached(s, p, h0) && At(s, p) == 0 && n in taken && n in Lost(s)
    requires PlaceOk(s, taken, i, block, l, h)
    ensures var s', q := FillCell(s, p, h0, n), SlotOf(i, block, l);
            && (Attached(s', q, h) <==> Attached(s, q, h))
            && (Attached(s, q, h) ==> At(s', q) == if q == p then n else At(s, q))
  {
    var s', q := FillCell(s, p, h0, n), SlotOf(i, block, l);
    FillAttached(s, p, h0, n);
    SlotsOfCall(i, block, l, s);
    EmptyReachesNothing(s, p);
    if l > 0 {
      SlotsOfCall(i, block, l - 1, s);
      var parent := Parent(q);
      assert At(s, parent) == Holder(s, q) && At(s', parent) == Holder(s', q) && IsSlot(s, parent);
      assert Under(p, parent) ==> At(s, parent) == 0;
      assert Under(p, q) && q != p ==> Under(p, parent);
    }
  }

  // only blocks and inodes matter to whether a call is doomed
  lemma DoomSame(y: System, v: System, id: nat)
    requires IsFilling(y, id) && id in v.calls && v.calls[id] == y.calls[id]
    requires v.s.disk == y.s.disk && v.s.inodes == y.s.inodes
    ensures Doomed(v, id) <==> Doomed(y, id)
  {
    forall q: Slot ensures At(v.s, q) == At(y.s, q) && (!q.Direct? ==> Holder(v.s, q) == Holder(y.s, q)) {}
  }

  // a step that is no fill leaves the calls alone that have taken zones, and their slots
  lemma FillingKept(y: System, a: Action, id: nat)
    requires !a.Fill? && IsFilling(y, id)
    ensures var v := Next(y, a);
            && IsFilling(v, id) && v.calls[id] == y.calls[id] && FillsSlot(v, id) == FillsSlot(y, id)
            && (Doomed(v, id) <==> Doomed(y, id))
  {
    DoomSame(y, Next(y, a), id);
  }

  // so does a fill that finds its slot empty, but for its own
  lemma CleanFillKept(y: System, id0: nat, id: nat)
    requires SystemInv(y) && IsFilling(y, id0) && !Doomed(y, id0) && IsFilling(y, id) && id != id0
    ensures var v := Next(y, Fill(id0));
            && IsFilling(v, id) && v.calls[id] == y.calls[id] && FillsSlot(v, id) == FillsSlot(y, id)
            && (Doomed(v, id) <==> Doomed(y, id) || FillsSlot(y, id) == FillsSlot(y, id0))
  {
    var c0, c := y.calls[id0], y.calls[id];
    FillReady(y, id0);
    assert CallOk(y.s, Taken(y.calls), c);
    PlaceAfterFill(y.s, Taken(y.calls), FillsSlot(y, id0), c0.h, c0.n, c.i, c.block, c.l, c.h);
  }

  // what a fill wastes was not wasted before, and it wastes something just when it is doomed
  lemma FillWastes(y: System, id: nat)
    requires SystemInv(y) && IsFilling(y, id)
    ensures Wasted(y, Fill(id)) !! Waste(y) && (Wasted(y, Fill(id)) == {} <==> !Doomed(y, id))
  {
    var c, p := y.calls[id], FillsSlot(y, id);
    FillReady(y, id);
    FilledStore(y.s, p, c.h, c.n);
    EmptyReachesNothing(y.s, p);
  }

  // danger does not pass
  lemma DangerKept(y: System, a: Action, w0: set<int>)
    requires SystemInv(y) && Danger(y, w0)
    ensures Danger(Next(y, a), w0)
  {
    NextKeeps(y, a);
    var v := Next(y, a);
    if a.Fill? && IsFilling(y, a.id) {
      FillWastes(y, a.id);
      if Waste(y) == w0 && !Doomed(y, a.id) { CleanFillDanger(y, a.id); }
    } else if Waste(y) == w0 {
      if id :| Doomed(y, id) {
        if !a.Fill? { FillingKept(y, a, id); }
        assert Doomed(v, id);
      } else {
        var id, id2 :| Pair(y, id, id2);
        if !a.Fill? {
          FillingKept(y, a, id);
          FillingKept(y, a, id2);
        }
        assert Pair(v, id, id2);
      }
    }
  }

  lemma CleanFillDanger(y: System, id0: nat)
    requires SystemInv(y) && IsFilling(y, id0) && !Doomed(y, id0)
    requires !NoneDoomed(y) || !NoPair(y)
    ensures !NoneDoomed(Next(y, Fill(id0))) || !NoPair(Next(y, Fill(id0)))
  {
    var v := Next(y, Fill(id0));
    if id :| Doomed(y, id) {
      CleanFillKept(y, id0, id);
      assert Doomed(v, id);
    } else {
      var id, id2 :| Pair(y, id, id2);
      if id == id0 || id2 == id0 {
        var other := if id == id0 then id2 else id;
        CleanFillKept(y, id0, other);
        assert Doomed(v, other);
      } else {
        CleanFillKept(y, id0, id);
        CleanFillKept(y, id0, id2);
        assert Pair(v, id, id2);
      }
    }
  }

  lemma {:induction false} DangerStays(y: System, actions: seq<Action>, w0: set<int>)
    requires SystemInv(y) && Danger(y, w0)
    ensures Danger(Run(y, actions), w0)
    decreases |actions|
  {
    if actions != [] {
      NextKeeps(y, actions[0]);
      DangerKept(y, actions[0], w0);
      DangerStays(Next(y, actions[0]), actions[1..], w0);
    }
  }

  // an overlap is a danger
  lemma OverlapEndangers(y: System, a: Action)
    requires SystemInv(y) && Overlaps(y, a)
    ensures Danger(Next(y, a), Waste(y))
  {
    NextKeeps(y, a);
    var c := y.calls[a.id];
    var id2 :| IsFilling(y, id2) && id2 != a.id && FillsSlot(y, id2) == SlotOf(c.i, c.block, c.l);
    FillingKept(y, a, id2);
    assert Pair(Next(y, a), a.id, id2);
  }

  // a fill that finds its slot empty leaves no other fill doomed unless for the same slot
  lemma FillDoomsNone(y: System, id0: nat)
    requires SystemInv(y) && NoneDoomed(y) && NoPair(y) && IsFilling(y, id0)
    ensures NoneDoomed(Next(y, Fill(id0))) && NoPair(Next(y, Fill(id0)))
  {
    var v := Next(y, Fill(id0));
    forall id ensures !Doomed(v, id) {
      if IsFilling(y, id) && id != id0 {
        assert !Pair(y, id, id0) && !Doomed(y, id0) && !Doomed(y, id);
        CleanFillKept(y, id0, id);
      }
    }
    forall id, id2 ensures !Pair(v, id, id2) { assert !Pair(y, id, id2); }
  }

  // as long as no two calls fill one slot, no fill wastes anything
  lemma ProperFill(y: System, id0: nat)
    requires SystemInv(y) && Proper(y) && IsFilling(y, id0)
    ensures Proper(Next(y, Fill(id0))) && Wasted(y, Fill(id0)) == {}
  {
    assert !Doomed(y, id0);
    FillWastes(y, id0);
    FillDoomsNone(y, id0);
    forall id ensures LooksWell(Next(y, Fill(id0)), id) {
      assert LooksWell(y, id);
      if id == id0 {
        FilledLooksWell(y, id0);
      } else if id in y.calls && y.calls[id].Looking? {
        OtherLooksWell(y, id0, id);
      }
    }
  }

  // after its own fill a call goes on in the block it has stored
  lemma FilledLooksWell(y: System, id: nat)
    requires SystemInv(y) && IsFilling(y, id) && !Doomed(y, id)
    ensures LooksWell(Next(y, Fill(id)), id)
  {
    var c, p, v := y.calls[id], FillsSlot(y, id), Next(y, Fill(id));
    FillReady(y, id);
    FillAttached(y.s, p, c.h, c.n);
    if c.l + 1 < Depth(c.block) {
      SlotsOfCall(c.i, c.block, c.l + 1, y.s);
      var q := SlotOf(c.i, c.block, c.l + 1);
      assert Holder(v.s, q) == At(v.s, p);
    }
  }

  lemma OtherLooksWell(y: System, id0: nat, id: nat)
    requires SystemInv(y) && IsFilling(y, id0) && !Doomed(y, id0) && id != id0
    requires id in y.calls && y.calls[id].Looking? && LooksWell(y, id)
    ensures LooksWell(Next(y, Fill(id0)), id)
  {
    var c0, c := y.calls[id0], y.calls[id];
    FillReady(y, id0);
    assert CallOk(y.s, Taken(y.calls), c);
    PlaceAfterFill(y.s, Taken(y.calls), FillsSlot(y, id0), c0.h, c0.n, c.i, c.block, c.l, c.h);
  }

  // a call that takes a zone finds its slot empty, in the block its parent names
  lemma LookDoomsNone(y: System, id0: nat)
    requires SystemInv(y) && NoneDoomed(y) && LooksWell(y, id0) && id0 in y.calls && y.calls[id0].Looking?
    ensures NoneDoomed(Next(y, Look(id0)))
  {
    var c := y.calls[id0];
    MarkKeeps(y.s);
    assert CallOk(y.s, Taken(y.calls), c);
    PlaceAttached(y.s, Taken(y.calls), c.i, c.block, c.l, c.h);
    forall id ensures !Doomed(Next(y, Look(id0)), id) {
      assert !Doomed(y, id);
      if IsFilling(y, id) { FillingKept(y, Look(id0), id); }
    }
  }

  lemma LookPairsNone(y: System, id0: nat)
    requires NoPair(y) && id0 in y.calls && y.calls[id0].Looking? && !Overlaps(y, Look(id0))
    ensures NoPair(Next(y, Look(id0)))
  {
    var v, c := Next(y, Look(id0)), y.calls[id0];
    var p := SlotOf(c.i, c.block, c.l);
    forall id, id2 ensures !Pair(v, id, id2) {
      assert !Pair(y, id, id2);
      assert IsFilling(y, id) && id != id0 && IsFilling(v, id0) ==> FillsSlot(y, id) != p;
      assert IsFilling(y, id2) && id2 != id0 && IsFilling(v, id0) ==> FillsSlot(y, id2) != p;
    }
  }

  lemma ProperLook(y: System, id0: nat)
    requires SystemInv(y) && Proper(y) && id0 in y.calls && y.calls[id0].Looking? && !Overlaps(y, Look(id0))
    ensures Proper(Next(y, Look(id0)))
  {
    LookDoomsNone(y, id0);
    LookPairsNone(y, id0);
    forall id ensures LooksWell(Next(y, Look(id0)), id) { LookLooksWell(y, id0, id); }
  }

  lemma LookLooksWell(y: System, id0: nat, id: nat)
    requires SystemInv(y) && id0 in y.calls && y.calls[id0].Looking? && LooksWell(y, id) && LooksWell(y, id0)
    ensures LooksWell(Next(y, Look(id0)), id)
  {
    var c := y.calls[id0];
    MarkKeeps(y.s);
    if id == id0 && c.l + 1 < Depth(c.block) {
      assert CallOk(y.s, Taken(y.calls), c);
      PlaceAttached(y.s, Taken(y.calls), c.i, c.block, c.l, c.h);
      SlotsOfCall(c.i, c.block, c.l + 1, y.s);
      assert Holder(y.s, SlotOf(c.i, c.block, c.l + 1)) == At(y.s, SlotOf(c.i, c.block, c.l));
    }
  }

  lemma ProperKept(y: System, a: Action)
    requires SystemInv(y) && Proper(y) && !Overlaps(y, a)
    ensures Proper(Next(y, a)) && Wasted(y, a) == {}
  {
    match a
    case Start(id, i, block) =>
      var v := Next(y, a);
      forall x ensures !Doomed(v, x) { if IsFilling(y, x) { FillingKept(y, a, x); } }
      forall x, x2 ensures !Pair(v, x, x2) { assert !Pair(y, x, x2); }
      forall x ensures LooksWell(v, x) { assert x in y.calls && y.calls[x].Looking? ==> LooksWell(y, x); }
    case Look(id) => if id in y.calls && y.calls[id].Looking? { ProperLook(y, id); }
    case Fill(id) => if IsFilling(y, id) { ProperFill(y, id); }
  }

  // either two calls overlap, and something is wasted in the end, or nothing is
  lemma {:induction false} OverlapDecides(y: System, actions: seq<Action>)
    requires SystemInv(y) && Proper(y)
    ensures if EverOverlaps(y, actions) then Danger(Run(y, actions), Waste(y))
            else Proper(Run(y, actions)) && Waste(Run(y, actions)) == Waste(y)
    decreases |actions|
  {
    if actions != [] {
      NextKeeps(y, actions[0]);
      if Overlaps(y, actions[0]) {
        OverlapEndangers(y, actions[0]);
        DangerStays(Next(y, actions[0]), actions[1..], Waste(y));
      } else {
        ProperKept(y, actions[0]);
        OverlapDecides(Next(y, actions[0]), actions[1..]);
      }
    }
  }

  // no call is asleep with a zone taken
  ghost predicate NoneFilling(y: System) { forall id :: !IsFilling(y, id) }

  lemma NoneTaken(y: System)
    requires NoneFilling(y)
    ensures Taken(y.calls) == {} && NoneDoomed(y) && NoPair(y)
  {
    forall b ensures b !in Taken(y.calls) {
      assert forall id :: id in y.calls && y.calls[id].Filling? ==> IsFilling(y, id);
    }
    forall id ensures !Doomed(y, id) {}
    forall id, id2 ensures !Pair(y, id, id2) {}
  }

  /** When blocks are lost: over any interleaving that lets all calls of create_block come to their
      end, the lost blocks are those from before if and only if no call took a zone for a slot
      while another call, having found the same slot empty, was asleep with a zone taken for it.
      Whatever happens, no block is named twice, none in use is taken again, and no panic is
      reached. */
  lemma LossIff(s: Store, actions: seq<Action>)
    requires Inv(s) && NoneFilling(Run(System(s, map[]), actions))
    ensures var y := Run(System(s, map[]), actions);
            Inv(y.s) && (Lost(y.s) == Lost(s) <==> !EverOverlaps(System(s, map[]), actions))
  {
    var y0 := System(s, map[]);
    var y := Run(y0, actions);
    assert NoneFilling(y0);
    NoneTaken(y0);
    NoneTaken(y);
    RunKeeps(y0, actions);
    OverlapDecides(y0, actions);
    assert Waste(y0) == Lost(s) && Waste(y) == Lost(y.s);
  }

  // ----- a witness ------------------------------------------------------------------

  lemma RunOn(y: System, a: Action, rest: seq<Action>)
    ensures Run(y, [a] + rest) == Run(Next(y, a), rest)
  {
    assert ([a] + rest)[1..] == rest;
  }

  lemma RunTwo(y: System, a: Action, b: Action, rest: seq<Action>)
    ensures Run(y, [a, b] + rest) == Run(Next(Next(y, a), b), rest)
  {
    assert [a, b] + rest == [a] + ([b] + rest);
    RunOn(y, a, [b] + rest);
    RunOn(Next(y, a), b, rest);
  }

  // both calls take a zone, and store it one after the other
  lemma TwoFills(s: Store, p: Slot) returns (n: nat, m: nat, s4: Store)
    requires Inv(s) && IsSlot(s, p) && p.Direct? && At(s, p) == 0
    requires FreeZone(s) != 0 && FreeZone(MarkZone(s)) != 0
    ensures n == FreeZone(s) && m == FreeZone(MarkZone(s))
    ensures s4 == FillCell(FillCell(MarkZone(MarkZone(s)), p, 0, n), p, 0, m)
    ensures Inv(s4) && At(s4, p) == m != n && n !in Lost(s) && n in Lost(s4)
  {
    n := FreeZone(s);
    var s1 := MarkZone(s);
    m := FreeZone(s1);
    var s2 := MarkZone(s1);
    MarkKeeps(s);
    MarkKeeps(s1);
    FillAttached(s2, p, 0, n);
    var s3 := FillCell(s2, p, 0, n);
    FillAttached(s3, p, 0, m);
    s4 := FillCell(s3, p, 0, m);
    assert IsSlot(s3, p) && NamedUnder(s3, p, n) by { assert Under(p, p); }
  }

  /** Two calls for one empty slot that overlap lose the block that one of them returns. */
  lemma OverlapLoses(s: Store, i: nat, block: nat) returns (n: nat)
    requires Inv(s) && i < |s.inodes| && block < 7 && Zone(s, i, block) == 0
    requires FreeZone(s) != 0 && FreeZone(MarkZone(s)) != 0
    ensures var y := Run(System(s, map[]),
                         [Start(1, i, block), Start(2, i, block), Look(1), Look(2), Fill(1), Fill(2)]);
            && Inv(y.s) && n !in Lost(s) && n in Lost(y.s)
            && 1 in y.calls && y.calls[1] == Done(n) && Bmap(y.s, i, block) != n
  {
    var m, s4;
    n, m, s4 := TwoFills(s, Direct(i, block));
    var y0, a, b := System(s, map[]), Looking(i, block, 0, 0), Filling(i, block, 0, 0, n);
    var y2 := System(s, map[1 := a, 2 := a]);
    var y4 := System(MarkZone(MarkZone(s)), map[1 := b, 2 := Filling(i, block, 0, 0, m)]);
    var y6 := System(s4, map[1 := Done(n), 2 := Done(m)]);
    var last := [Fill(1), Fill(2)];
    assert last + [] == last;
    MarkKeeps(s);
    RunTwo(y0, Start(1, i, block), Start(2, i, block), [Look(1), Look(2)] + last);
    assert Next(Next(y0, Start(1, i, block)), Start(2, i, block)) == y2;
    RunTwo(y2, Look(1), Look(2), last);
    assert Next(Next(y2, Look(1)), Look(2)) == y4;
    RunTwo(y4, Fill(1), Fill(2), []);
    assert Next(Next(y4, Fill(1)), Fill(2)) == y6;
    assert [Start(1, i, block), Start(2, i, block)] + ([Look(1), Look(2)] + last)
        == [Start(1, i, block), Start(2, i, block), Look(1), Look(2), Fill(1), Fill(2)];
    BmapIsSlot(s4, i, block);
  }

  // ----- a call by itself -----------------------------------------------------------

  // one round of a call that nobody disturbs
  function Round(y: System, id: nat): System { Next(Next(y, Look(id)), Fill(id)) }

  // the slot after the round
  function FillSlot(s: Store, p: Slot, h: nat): Store {
    if p.Direct? then FillZone(s, p.i, p.k) else FillPointer(s, h, Index(p))
  }

  // the round stores a new zone
  lemma TakesAndStores(s: Store, p: Slot, h: nat)
    requires Inv(s) && IsSlot(s, p) && Attached(s, p, h) && At(s, p) == 0 && FreeZone(s) != 0
    ensures FillCell(MarkZone(s), p, h, FreeZone(s)) == FillSlot(s, p, h)
    ensures CellAt(FillCell(MarkZone(s), p, h, FreeZone(s)), p, h) == FreeZone(s)
  {
    FreeZoneUnused(s);
    if !p.Direct? {
      assert IsSlot(s, Parent(p)) && At(s, Parent(p)) == h;
      EntryOfSet(s.disk[h], Index(p), FreeZone(s), Index(p));
    }
  }

  lemma RoundTakes(s: Store, id: nat, i: nat, block: nat, l: nat, h: nat)
    requires Inv(s) && IsSlot(s, SlotOf(i, block, l)) && Attached(s, SlotOf(i, block, l), h)
    requires CellAt(s, SlotOf(i, block, l), h) == 0 && FreeZone(s) != 0
    ensures var s' := FillSlot(s, SlotOf(i, block, l), h);
            Round(System(s, map[id := Looking(i, block, l, h)]), id) ==
            System(s', map[id := Advance(i, block, l, CellAt(s', SlotOf(i, block, l), h))])
  {
    var y := System(s, map[id := Looking(i, block, l, h)]);
    TakesAndStores(s, SlotOf(i, block, l), h);
    assert Next(y, Look(id)) == System(MarkZone(s), map[id := Filling(i, block, l, h, FreeZone(s))]);
  }

  lemma RoundFills(s: Store, id: nat, i: nat, block: nat, l: nat, h: nat)
    requires Inv(s) && i < |s.inodes| && block < MAX_BLOCKS && l < Depth(block) && Attached(s, SlotOf(i, block, l), h)
    ensures var s' := FillSlot(s, SlotOf(i, block, l), h);
            Round(System(s, map[id := Looking(i, block, l, h)]), id) ==
            System(s', map[id := Advance(i, block, l, CellAt(s', SlotOf(i, block, l), h))])
  {
    SlotsOfCall(i, block, l, s);
    if CellAt(s, SlotOf(i, block, l), h) == 0 && FreeZone(s) != 0 { RoundTakes(s, id, i, block, l, h); }
  }

  lemma RoundDone(s: Store, id: nat, b: nat)
    ensures Round(System(s, map[id := Done(b)]), id) == System(s, map[id := Done(b)])
  {}

  // the rounds of a call, for each depth of its slot
  lemma AloneDirect(s: Store, id: nat, i: nat, block: nat)
    requires Inv(s) && i < |s.inodes| && block < 7
    ensures var t := CreateBlock(s, i, block);
            Round(System(s, map[id := Looking(i, block, 0, 0)]), id) == System(t, map[id := Done(Bmap(t, i, block))])
  {
    RoundFills(s, id, i, block, 0, 0);
  }

  lemma AloneSingle(s: Store, id: nat, i: nat, block: nat)
    requires Inv(s) && i < |s.inodes| && 7 <= block < 7 + ENTRIES
    ensures var t := CreateBlock(s, i, block);
            Round(Round(System(s, map[id := Looking(i, block, 0, 0)]), id), id) ==
            System(t, map[id := Done(Bmap(t, i, block))])
  {
    SingleSteps(s, i, block, true);
    var s1 := FillZone(s, i, 7);
    RoundFills(s, id, i, block, 0, 0);
    if Zone(s1, i, 7) != 0 { RoundFills(s1, id, i, block, 1, Zone(s1, i, 7)); }
  }

  lemma AloneDouble(s: Store, id: nat, i: nat, block: nat)
    requires Inv(s) && i < |s.inodes| && 7 + ENTRIES <= block < MAX_BLOCKS
    ensures var t := CreateBlock(s, i, block);
            Round(Round(Round(System(s, map[id := Looking(i, block, 0, 0)]), id), id), id) ==
            System(t, map[id := Done(Bmap(t, i, block))])
  {
    var s1, k := FillZone(s, i, 8), block - 7 - ENTRIES;
    DoubleSteps(s, i, k, true);
    RoundFills(s, id, i, block, 0, 0);
    if Zone(s1, i, 8) != 0 { AloneTable(s1, id, i, block, k); }
  }

  lemma AloneTable(s1: Store, id: nat, i: nat, block: nat, k: nat)
    requires Inv(s1) && i < |s1.inodes| && block == 7 + ENTRIES + k < MAX_BLOCKS && Zone(s1, i, 8) != 0
    ensures var t := CreateLeaf(s1, i, k);
            Round(Round(System(s1, map[id := Looking(i, block, 1, Zone(s1, i, 8))]), id), id) ==
            System(t, map[id := Done(Bmap(t, i, block))])
  {
    var z := Zone(s1, i, 8);
    var s2 := FillPointer(s1, z, k / ENTRIES);
    var b := Pointer(s2, z, k / ENTRIES);
    TableSteps(s1, i, k, true);
    RoundFills(s1, id, i, block, 1, z);
    if b != 0 {
      assert Holder(s2, Leaf(i, k / ENTRIES, k % ENTRIES)) == b;
      RoundFills(s2, id, i, block, 2, b);
    }
  }

  /** A call that nobody disturbs is create_block. */
  lemma AloneIsCreate(s: Store, id: nat, i: nat, block: nat)
    requires Inv(s) && i < |s.inodes| && block < MAX_BLOCKS
    ensures var t := CreateBlock(s, i, block);
            Run(System(s, map[]), [Start(id, i, block), Look(id), Fill(id), Look(id), Fill(id), Look(id), Fill(id)]) ==
            System(t, map[id := Done(Bmap(t, i, block))])
  {
    var t := CreateBlock(s, i, block);
    var y0, y1 := System(s, map[]), System(s, map[id := Looking(i, block, 0, 0)]);
    var last: seq<Action> := [Look(id), Fill(id)];
    RoundDone(t, id, Bmap(t, i, block));
    if block < 7 {
      AloneDirect(s, id, i, block);
    } else if block < 7 + ENTRIES {
      AloneSingle(s, id, i, block);
    } else {
      AloneDouble(s, id, i, block);
    }
    assert Next(y0, Start(id, i, block)) == y1;
    RunOn(y0, Start(id, i, block), last + (last + last));
    RunTwo(y1, Look(id), Fill(id), last + last);
    RunTwo(Round(y1, id), Look(id), Fill(id), last);
    RunTwo(Round(Round(y1, id), id), Look(id), Fill(id), []);
    assert last + [] == last;
    assert [Start(id, i, block)] + (last + (last + last))
        == [Start(id, i, block), Look(id), Fill(id), Look(id), Fill(id), Look(id), Fill(id)];
  }
}
