/** When the memory manager runs out: every operation on user pages succeeds exactly when there are
    frames enough for it. */
module PagingSupply {
  import opened Basics
  import opened Paging
  import opened PagingInvariant
  import opened PagingSteps
  import opened PagingRefinement

  // a store through the entry needs a copy of the page: it is read-only, and somebody else has the page too
  ghost predicate NeedsCopy(m: Memory, d: int, i: int)
    requires Slot(d, i)
  {
    EntryAt(m, d, i).present && !EntryAt(m, d, i).writable && !(Pageable(m, Target(m, d, i)) && Sole(m, d, i))
  }

  /** write_verify runs out of memory exactly when a copy is needed and no frame is left. */
  lemma CheckFailsIff(m: Memory, d: int, i: int)
    requires Inv(m) && Slot(d, i) && 0 <= i
    ensures !WriteVerify(m, d, i).ok <==> NeedsCopy(m, d, i) && FreeFrames(m) == {}
  {
    assert Slot(d, -1);
    HighestFreeFrame(m);
    if EntryAt(m, d, i).present && Pageable(m, Target(m, d, i)) { CountPositive(m, d, i); }
  }

  /** So does a store, which fails besides only where there is no page. */
  lemma WriteFailsIff(m: Memory, d: int, i: int, w: nat, x: Word)
    requires Inv(m) && Slot(d, i) && 0 <= i
    ensures !Store(m, d, i, w, x).ok <==>
            !EntryAt(m, d, i).present || (NeedsCopy(m, d, i) && FreeFrames(m) == {})
  {
    assert Slot(d, -1);
    CheckFailsIff(m, d, i);
  }

  /** put_page runs out exactly when it needs a table and no frame is left. */
  lemma EnterFailsIff(m: Memory, page: nat, d: int, i: int)
    requires Inv(m) && Slot(d, i) && 0 <= i
    ensures !PutPage(m, page, d, i).ok <==> !EntryAt(m, d, -1).present && FreeFrames(m) == {}
  {
    HighestFreeFrame(m);
  }

  /** get_empty_page takes one frame for the page and one more if there is no table. */
  lemma DemandSucceedsIff(m: Memory, d: int, i: int)
    requires Inv(m) && Slot(d, i) && 0 <= i && !EntryAt(m, d, i).present
    ensures GetEmptyPage(m, d, i).ok <==> |FreeFrames(m)| >= if EntryAt(m, d, -1).present then 1 else 2
  {
    assert Slot(d, -1);
    HighestFreeFrame(m);
    var page := FreeFrame(m);
    if page != 0 {
      FreeFrameUnused(m);
      TakeStep(m);
      var m1 := Take(m, page);
      TakeTakes(m);
      EnterFailsIff(m1, page, d, i);
      RemoveSize(FreeFrames(m), page as int);
    }
  }

  lemma TakeTakes(m: Memory)
    requires Inv(m) && FreeFrame(m) != 0
    ensures FreeFrame(m) in FreeFrames(m)
    ensures FreeFrames(Take(m, FreeFrame(m))) == FreeFrames(m) - {FreeFrame(m) as int}
  {
    HighestFreeFrame(m);
    var m1 := Take(m, FreeFrame(m));
    forall f ensures IsFree(m1, f) <==> IsFree(m, f) && f != FreeFrame(m) {}
  }

  // the tables that fork has to copy
  ghost function Tables(m: Memory, from: int, n: nat): (tables: set<int>)
    ensures forall d :: d in tables <==> from <= d < from + n && 0 <= d && Read(m, 0, d).present
  {
    set d | from <= d < from + n && 0 <= d && Read(m, 0, d).present
  }

  lemma TablesRest(m: Memory, m2: Memory, from: int, to: int, n: nat)
    requires n > 0 && ForkRange(m, from, to, n)
    requires forall d :: SPACE_DIRS <= d < ENTRIES && d != to ==> Read(m2, 0, d).present == Read(m, 0, d).present
    ensures |Tables(m, from, n)| == |Tables(m2, from + 1, n - 1)| + if Read(m, 0, from).present then 1 else 0
  {
    assert Tables(m, from, n) - {from} == Tables(m2, from + 1, n - 1);
    RemoveSize(Tables(m, from, n), from);
  }

  // one directory entry of fork costs a frame if there is a table
  lemma TurnCosts(m: Memory, from: int, to: int, n: nat)
    requires Inv(m) && n > 0 && ForkRange(m, from, to, n) && (Read(m, 0, from).present ==> InstallTable(m, to).ok)
    ensures var m2 := AfterOneDir(m, from, to); var cost := if Read(m, 0, from).present then 1 else 0;
            && Inv(m2) && ForkRange(m2, from + 1, to + 1, n - 1)
            && |FreeFrames(m)| == |FreeFrames(m2)| + cost
            && |Tables(m, from, n)| == |Tables(m2, from + 1, n - 1)| + cost
            && CopyDirs(m, from, to, n) == CopyDirs(m2, from + 1, to + 1, n - 1)
  {
    CopyTurn(m, from, to, n);
    CopyContinues(m, from, to, n);
    TablesRest(m, AfterOneDir(m, from, to), from, to, n);
    RemoveSize(FreeFrames(m), FreeFrame(m) as int);
  }

  lemma {:induction false} CopySucceedsIff(m: Memory, from: int, to: int, n: nat)
    requires Inv(m) && ForkRange(m, from, to, n)
    ensures CopyDirs(m, from, to, n).ok <==> |Tables(m, from, n)| <= |FreeFrames(m)|
    decreases n
  {
    if n == 0 {
      assert Tables(m, from, n) == {};
    } else if Read(m, 0, from).present && !InstallTable(m, to).ok {
      HighestFreeFrame(m);
      CopyStops(m, from, to, n);
      assert from in Tables(m, from, n);
    } else {
      TurnCosts(m, from, to, n);
      CopySucceedsIff(AfterOneDir(m, from, to), from + 1, to + 1, n - 1);
    }
  }

  /** Fork succeeds exactly when there is a free frame for every page table of the parent. */
  lemma ForkSucceedsIff(m: Memory, from: int, to: int, n: nat)
    requires Inv(m) && ForkRange(m, from, to, n)
    ensures CopyMem(m, from, to, n).ok <==> |Tables(m, from, n)| <= |FreeFrames(m)|
  {
    CopySucceedsIff(m, from, to, n);
  }

  /** verify_area stops short only when no frame is left. */
  lemma {:induction false} AreaFailsOnlyWithoutFrames(m: Memory, p: nat, left: int)
    requires Inv(m) && SPACE_DIRS * ENTRIES <= p && (left > 0 ==> (ENTRIES * ENTRIES - p) * PAGE >= left)
    ensures !VerifyFrom(m, p, left).ok ==> FreeFrames(VerifyFrom(m, p, left).m) == {}
    decreases left
  {
    if left > 0 {
      PageSplit(p);
      var d, i := p / ENTRIES, p % ENTRIES;
      var r := WriteVerify(m, d, i);
      VerifyPages(m, d, i);
      if r.ok { AreaFailsOnlyWithoutFrames(r.m, p + 1, left - PAGE); } else { CheckFailsIff(m, d, i); }
    }
  }

  /** try_to_share shares exactly the pages that are present, clean and pageable in the other task,
      given a frame for the table if there is none. */
  lemma ShareIff(m: Memory, from: int, to: int, i: int)
    requires Inv(m) && Slot(from, i) && Slot(to, i) && 0 <= i && from != to && !EntryAt(m, to, i).present
    ensures var e := EntryAt(m, from, i);
            var fit := e.present && !e.dirty && Pageable(m, Target(m, from, i));
            var table := EntryAt(m, to, -1).present || FreeFrames(m) != {};
            SharingOutcome(m, from, to, i) == if !fit then NotShared else if table then Shared else NoMemory
  {
    assert Slot(from, -1) && Slot(to, -1);
    HighestFreeFrame(m);
    NeedTableStep(m, to);
    if EntryAt(m, from, i).present { assert EntryAt(m, from, i) == Read(m, Read(m, 0, from).frame, i); }
    if NeedTable(m, to).ok { assert EntryAt(NeedTable(m, to).m, to, i) == EntryAt(m, to, i); }
  }
}
