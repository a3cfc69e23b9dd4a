/** The counting invariant over all page tables, and how the basic steps keep it.

    A slot (d, i) of user space is entry i of the table in directory entry d, or the
    directory entry itself when i is -1. Directory entries below SPACE_DIRS belong to task 0. */
module PagingInvariant {
  import opened Basics
  import opened Paging

  predicate Slot(d: int, i: int) { SPACE_DIRS <= d < ENTRIES && -1 <= i < ENTRIES }

  function EntryAt(m: Memory, d: int, i: int): Word
    requires Slot(d, i)
  {
    if i == -1 then Read(m, 0, d)
    else if Read(m, 0, d).present then Read(m, Read(m, 0, d).frame, i)
    else ZERO_WORD
  }

  // the frame a slot names, or -1
  function Target(m: Memory, d: int, i: int): int
    requires Slot(d, i)
  {
    if EntryAt(m, d, i).present then EntryAt(m, d, i).frame else -1
  }

  ghost predicate Sole(m: Memory, d: int, i: int)
    requires Slot(d, i)
  {
    && Target(m, d, i) !in m.held
    && forall d2, j :: Slot(d2, j) && !(d2 == d && j == i) ==> Target(m, d2, j) != Target(m, d, i)
  }

  // a frame used as a table is referenced once
  ghost predicate TablesExclusive(m: Memory) {
    forall d :: Slot(d, -1) && EntryAt(m, d, -1).present ==> Pageable(m, Target(m, d, -1)) && Sole(m, d, -1)
  }

  // an entry names a pageable or a low frame, and a writable one names a pageable frame alone
  ghost predicate PagesProtected(m: Memory) {
    forall d, i :: Slot(d, i) && i >= 0 && EntryAt(m, d, i).present ==>
      && (Pageable(m, Target(m, d, i)) || Target(m, d, i) < LOW_FRAME)
      && (EntryAt(m, d, i).writable ==> Pageable(m, Target(m, d, i)) && Sole(m, d, i))
  }

  ghost predicate HeldApart(m: Memory) {
    forall f :: f in m.held ==> Pageable(m, f) && forall d, i :: Slot(d, i) ==> Target(m, d, i) != f
  }

  // the slots that share a page sit at the same place of different tasks
  ghost predicate Aligned(m: Memory) {
    forall d, i, d2, j ::
      Slot(d, i) && Slot(d2, j) && Pageable(m, Target(m, d, i)) && Target(m, d, i) == Target(m, d2, j)
      ==> i == j && d % SPACE_DIRS == d2 % SPACE_DIRS
  }

  ghost function Refs(m: Memory, f: int): set<(int, int)> {
    set d, i | SPACE_DIRS <= d < ENTRIES && -1 <= i < ENTRIES && Target(m, d, i) == f :: (d, i)
  }

  ghost function Holds(m: Memory, f: int): nat { if f in m.held then 1 else 0 }

  ghost predicate Counted(m: Memory)
    requires Shape(m)
  {
    forall f :: LOW_FRAME <= f < FRAMES ==>
      m.counts[f - LOW_FRAME] == if Pageable(m, f) then |Refs(m, f)| + Holds(m, f) else USED
  }

  ghost predicate Inv(m: Memory) {
    && Shape(m)
    && !m.panicked
    && TablesExclusive(m)
    && PagesProtected(m)
    && HeldApart(m)
    && Aligned(m)
    && Counted(m)
  }

  // ----- references -----------------------------------------------------------------

  // mem_init: all pageable frames free and no user table
  ghost predicate Booted(m: Memory) {
    && Shape(m)
    && !m.panicked
    && m.held == {}
    && (forall d :: SPACE_DIRS <= d < ENTRIES ==> !Read(m, 0, d).present)
    && (forall k :: 0 <= k < PAGING_PAGES ==> m.counts[k] == if Pageable(m, k + LOW_FRAME) then 0 else USED)
  }

  lemma BootInv(m: Memory)
    requires Booted(m)
    ensures Inv(m)
  {
    assert forall d, i :: Slot(d, i) ==> Target(m, d, i) == -1;
    forall f | LOW_FRAME <= f < FRAMES
      ensures m.counts[f - LOW_FRAME] == if Pageable(m, f) then |Refs(m, f)| + Holds(m, f) else USED
    {
      assert Refs(m, f) == {};
      assert f == (f - LOW_FRAME) + LOW_FRAME;
    }
  }

  // changing one slot moves one reference
  lemma RefsUpdate(m: Memory, m': Memory, d: int, i: int, f: int)
    requires Slot(d, i)
    requires forall d2, j :: Slot(d2, j) && !(d2 == d && j == i) ==> Target(m', d2, j) == Target(m, d2, j)
    ensures |Refs(m', f)| ==
            |Refs(m, f)| + (if Target(m', d, i) == f then 1 else 0) - (if Target(m, d, i) == f then 1 else 0)
  {
    var rest, rest' := Refs(m, f) - {(d, i)}, Refs(m', f) - {(d, i)};
    assert forall p :: p in rest <==> p in rest';
    assert rest == rest';
    RemoveSize(Refs(m, f), (d, i));
    RemoveSize(Refs(m', f), (d, i));
    assert (d, i) in Refs(m, f) <==> Target(m, d, i) == f;
    assert (d, i) in Refs(m', f) <==> Target(m', d, i) == f;
  }

  lemma SameRefs(m: Memory, m': Memory, f: int)
    requires forall d, i :: Slot(d, i) ==> Target(m', d, i) == Target(m, d, i)
    ensures Refs(m', f) == Refs(m, f)
  {}

  // each of the 64 tasks can contribute one reference, so a byte never overflows
  lemma RefsBound(m: Memory, f: int)
    requires Aligned(m) && Pageable(m, f)
    ensures |Refs(m, f)| <= ENTRIES / SPACE_DIRS
  {
    if s :| s in Refs(m, f) {
      var places := set k | 0 <= k < ENTRIES / SPACE_DIRS :: (SPACE_DIRS * k + s.0 % SPACE_DIRS, s.1);
      forall t | t in Refs(m, f)
        ensures t in places
      {
        assert Slot(s.0, s.1) && Slot(t.0, t.1);
        assert t.0 == SPACE_DIRS * (t.0 / SPACE_DIRS) + t.0 % SPACE_DIRS;
      }
      PlacesBound(s.0 % SPACE_DIRS, s.1, ENTRIES / SPACE_DIRS);
      SubsetSize(Refs(m, f), places);
    }
  }

  lemma {:induction false} PlacesBound(r: int, i: int, n: nat)
    ensures |set k | 0 <= k < n :: (SPACE_DIRS * k + r, i)| <= n
  {
    if n > 0 {
      PlacesBound(r, i, n - 1);
      assert (set k | 0 <= k < n :: (SPACE_DIRS * k + r, i))
          == (set k | 0 <= k < n - 1 :: (SPACE_DIRS * k + r, i)) + {(SPACE_DIRS * (n - 1) + r, i)};
    }
  }

  lemma {:induction false} SubsetSize<T>(a: set<T>, b: set<T>)
    requires a <= b
    ensures |a| <= |b|
  {
    assert a + (b - a) == b;
  }

  predicate IsFree(m: Memory, f: int) {
    Pageable(m, f) && 0 <= f - LOW_FRAME < |m.counts| && m.counts[f - LOW_FRAME] == 0
  }

  /** The pageable frames that nobody uses. */
  ghost function FreeFrames(m: Memory): (free: set<int>)
    ensures forall f :: f in free <==> IsFree(m, f)
  {
    set f | m.lo <= f < m.hi && IsFree(m, f)
  }

  /** get_free_page finds the highest of them, and nothing only if there are none. */
  lemma HighestFreeFrame(m: Memory)
    requires Inv(m)
    ensures FreeFrame(m) == 0 <==> FreeFrames(m) == {}
    ensures FreeFrame(m) != 0 ==> FreeFrame(m) in FreeFrames(m) && forall f :: f in FreeFrames(m) ==> f <= FreeFrame(m)
  {
    var k := LastFree(m.counts, |m.counts|);
    if k >= 0 { assert Pageable(m, k + LOW_FRAME) && k + LOW_FRAME in FreeFrames(m); }
    forall f | f in FreeFrames(m) ensures 0 <= f - LOW_FRAME <= k {}
  }

  // a frame is free when nobody names or holds it
  lemma FreeIffUnnamed(m: Memory, f: int)
    requires Inv(m) && Pageable(m, f)
    ensures f in FreeFrames(m) <==> f !in m.held && forall d, i :: Slot(d, i) ==> Target(m, d, i) != f
  {
    if forall d, i :: Slot(d, i) ==> Target(m, d, i) != f { assert Refs(m, f) == {}; }
    if d, i :| Slot(d, i) && Target(m, d, i) == f { assert (d, i) in Refs(m, f); }
  }

  lemma FreeFrameUnused(m: Memory)
    requires Inv(m) && FreeFrame(m) != 0
    ensures Pageable(m, FreeFrame(m)) && FreeFrame(m) !in m.held
    ensures m.counts[FreeFrame(m) - LOW_FRAME] == 0
    ensures forall d, i :: Slot(d, i) ==> Target(m, d, i) != FreeFrame(m)
  {
    var f := FreeFrame(m);
    assert Refs(m, f) == {};
    forall d, i | Slot(d, i)
      ensures Target(m, d, i) != f
    {
      assert (d, i) !in Refs(m, f);
    }
  }

  // a present slot keeps its frame's count positive
  lemma CountPositive(m: Memory, d: int, i: int)
    requires Inv(m) && Slot(d, i) && Pageable(m, Target(m, d, i))
    ensures 1 <= m.counts[Target(m, d, i) - LOW_FRAME] <= ENTRIES / SPACE_DIRS
    ensures m.counts[Target(m, d, i) - LOW_FRAME] == 1 <==> Sole(m, d, i)
  {
    var f := Target(m, d, i);
    assert (d, i) in Refs(m, f);
    RefsBound(m, f);
    assert f !in m.held;
    if |Refs(m, f)| == 1 {
      forall d2, j | Slot(d2, j) && !(d2 == d && j == i)
        ensures Target(m, d2, j) != f
      {
        if Target(m, d2, j) == f {
          assert {(d, i), (d2, j)} <= Refs(m, f);
          SubsetSize({(d, i), (d2, j)}, Refs(m, f));
        }
      }
    }
    if Sole(m, d, i) {
      assert Refs(m, f) == {(d, i)};
    }
  }

  // ----- edits ----------------------------------------------------------------------

  // m' differs from m in slot (d, i) at most, as far as slots go
  ghost predicate OnlySlot(m: Memory, m': Memory, d: int, i: int)
    requires Slot(d, i)
  {
    forall d2, j :: Slot(d2, j) && !(d2 == d && j == i) ==> EntryAt(m', d2, j) == EntryAt(m, d2, j)
  }

  lemma SetEntry(m: Memory, d: int, i: int, w: Word)
    requires Shape(m) && TablesExclusive(m)
    requires Slot(d, i) && i >= 0 && Read(m, 0, d).present
    ensures var m' := SetWord(m, Read(m, 0, d).frame, i, w);
            && Shape(m') && OnlySlot(m, m', d, i) && EntryAt(m', d, i) == w
            && forall f :: 0 <= f < FRAMES && f != Read(m, 0, d).frame ==> m'.mem[f] == m.mem[f]
  {
    var t := Read(m, 0, d).frame;
    assert Slot(d, -1) && Target(m, d, -1) == t;
    var m' := SetWord(m, t, i, w);
    forall d2, j | Slot(d2, j) && !(d2 == d && j == i)
      ensures EntryAt(m', d2, j) == EntryAt(m, d2, j)
    {
      assert Slot(d2, -1);
      assert d2 != d ==> Target(m, d2, -1) != t;
    }
  }

  // m' redirects slot (d, i) and gives no other entry write permission
  ghost predicate Redirected(m: Memory, m': Memory, d: int, i: int)
    requires Slot(d, i)
  {
    && m'.lo == m.lo && m'.hi == m.hi
    && (forall d2, j :: Slot(d2, j) && !(d2 == d && j == i) ==>
          && Target(m', d2, j) == Target(m, d2, j)
          && (EntryAt(m', d2, j).writable ==> EntryAt(m, d2, j).writable))
  }

  // whoever else names the new frame is a read-only entry at the same place of another task
  ghost predicate FairTarget(m: Memory, m': Memory, d: int, i: int)
    requires Slot(d, i)
  {
    var f := Target(m', d, i);
    && (f != -1 ==> Pageable(m, f) || (0 <= i && f < LOW_FRAME && !EntryAt(m', d, i).writable))
    && (Pageable(m, f) ==>
          forall d2, j :: Slot(d2, j) && !(d2 == d && j == i) && Target(m, d2, j) == f ==>
            && 0 <= j == i && d2 % SPACE_DIRS == d % SPACE_DIRS
            && !EntryAt(m', d, i).writable && !EntryAt(m', d2, j).writable)
  }

  ghost predicate CountsFollow(m: Memory, m': Memory, d: int, i: int)
    requires Shape(m) && Shape(m') && Slot(d, i)
  {
    forall f :: LOW_FRAME <= f < FRAMES ==>
      m'.counts[f - LOW_FRAME] == m.counts[f - LOW_FRAME] +
        if !Pageable(m, f) then 0
        else Holds(m', f) - Holds(m, f) +
             (if Target(m', d, i) == f then 1 else 0) - (if Target(m, d, i) == f then 1 else 0)
  }

  // the argument behind every step
  lemma RedirectKeepsInv(m: Memory, m': Memory, d: int, i: int)
    requires Inv(m) && Shape(m') && !m'.panicked && HeldApart(m')
    requires Slot(d, i) && Redirected(m, m', d, i) && FairTarget(m, m', d, i) && CountsFollow(m, m', d, i)
    ensures Inv(m')
  {
    RedirectKeepsProtection(m, m', d, i);
    forall f | LOW_FRAME <= f < FRAMES
      ensures m'.counts[f - LOW_FRAME] == if Pageable(m', f) then |Refs(m', f)| + Holds(m', f) else USED
    {
      RefsUpdate(m, m', d, i, f);
      assert Pageable(m, f) == Pageable(m', f);
    }
  }

  lemma RedirectKeepsProtection(m: Memory, m': Memory, d: int, i: int)
    requires Shape(m) && TablesExclusive(m) && PagesProtected(m) && Aligned(m) && HeldApart(m')
    requires Slot(d, i) && Redirected(m, m', d, i) && FairTarget(m, m', d, i)
    ensures TablesExclusive(m') && PagesProtected(m') && Aligned(m')
  {
    forall d2, j | Slot(d2, j) && EntryAt(m', d2, j).present && (j == -1 || EntryAt(m', d2, j).writable)
      ensures Pageable(m', Target(m', d2, j)) && Sole(m', d2, j)
    {
      assert !(d2 == d && j == i) ==> Sole(m, d2, j);
    }
  }

  // a change of the held frames alone
  lemma HoldingKeepsInv(m: Memory, m': Memory)
    requires Inv(m) && Shape(m') && !m'.panicked && HeldApart(m') && m'.lo == m.lo && m'.hi == m.hi
    requires forall d, i :: Slot(d, i) ==> EntryAt(m', d, i) == EntryAt(m, d, i)
    requires forall f :: LOW_FRAME <= f < FRAMES ==>
               m'.counts[f - LOW_FRAME] ==
               m.counts[f - LOW_FRAME] + if Pageable(m, f) then Holds(m', f) - Holds(m, f) else 0
    ensures Inv(m')
  {
    forall f | LOW_FRAME <= f < FRAMES
      ensures m'.counts[f - LOW_FRAME] == if Pageable(m', f) then |Refs(m', f)| + Holds(m', f) else USED
    {
      SameRefs(m, m', f);
      assert Pageable(m, f) == Pageable(m', f);
    }
    forall d, i | Slot(d, i) && EntryAt(m', d, i).present && (i == -1 || EntryAt(m', d, i).writable)
      ensures Sole(m', d, i)
    {
      assert Sole(m, d, i);
    }
  }
}
