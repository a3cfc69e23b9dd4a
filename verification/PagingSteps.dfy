/** What each basic step does to the pages a task can read, and that it keeps the invariant. */
module PagingSteps {
  import opened Paging
  import opened PagingInvariant

  /** What a task finds at a page: nothing, a page of low (kernel) memory, or words of its own. */
  datatype Page = Absent | Low(frame: nat) | Data(words: seq<Word>)

  function PageAt(m: Memory, d: int, i: int): Page
    requires Slot(d, i) && 0 <= i
  {
    var e := EntryAt(m, d, i);
    if !e.present then Absent
    else if e.frame < LOW_FRAME then Low(e.frame)
    else Data(if e.frame < |m.mem| then m.mem[e.frame] else [])
  }

  ghost predicate OnlyPage(m: Memory, m': Memory, d: int, i: int) {
    forall d2, j :: Slot(d2, j) && 0 <= j && !(d2 == d && j == i) ==> PageAt(m', d2, j) == PageAt(m, d2, j)
  }

  ghost predicate OnlyTarget(m: Memory, m': Memory, d: int, i: int) {
    forall d2, j :: Slot(d2, j) && !(d2 == d && j == i) ==> Target(m', d2, j) == Target(m, d2, j)
  }

  // low memory, the page directory included, is untouched
  ghost predicate SameLow(m: Memory, m': Memory)
    requires Shape(m) && Shape(m')
  {
    forall f :: 0 <= f < LOW_FRAME ==> m'.mem[f] == m.mem[f]
  }

  ghost predicate SamePages(m: Memory, m': Memory) {
    forall d, j :: Slot(d, j) && 0 <= j ==> PageAt(m', d, j) == PageAt(m, d, j)
  }

  // pages survive an edit of two page tables
  lemma TableEditsKeepPage(m: Memory, m': Memory, a: int, b: int, d: int, i: int)
    requires Inv(m) && Shape(m') && Slot(a, -1) && Slot(b, -1) && Slot(d, i) && 0 <= i
    requires EntryAt(m, a, -1).present && EntryAt(m, b, -1).present
    requires forall f :: 0 <= f < FRAMES && f != Target(m, a, -1) && f != Target(m, b, -1) ==> m'.mem[f] == m.mem[f]
    requires Target(m', d, i) == Target(m, d, i)
    ensures PageAt(m', d, i) == PageAt(m, d, i)
  {
    assert Sole(m, a, -1) && Sole(m, b, -1);
  }

  // fd and td are the same place of two tasks, both with tables, and td has no page at i
  ghost predicate Copyable(m: Memory, fd: int, td: int, i: int) {
    && Slot(fd, i) && Slot(td, i) && 0 <= i && fd != td && fd % SPACE_DIRS == td % SPACE_DIRS
    && EntryAt(m, fd, -1).present && EntryAt(m, td, -1).present && !EntryAt(m, td, i).present
  }

  // m' shares the page of (fd, i) with (td, i)
  ghost predicate SharesSlot(m: Memory, m': Memory, fd: int, td: int, i: int)
    requires Shape(m) && Copyable(m, fd, td, i)
  {
    var shared := EntryAt(m, fd, i).(writable := false);
    && Shape(m') && m'.lo == m.lo && m'.hi == m.hi && m'.held == m.held && m'.panicked == m.panicked
    && EntryAt(m', td, i) == shared
    && EntryAt(m', fd, i) == shared
    && (forall d, j :: Slot(d, j) && !(d == td && j == i) && !(d == fd && j == i) ==>
        EntryAt(m', d, j) == EntryAt(m, d, j))
    && (forall f :: 0 <= f < FRAMES && f != Target(m, fd, -1) && f != Target(m, td, -1) ==> m'.mem[f] == m.mem[f])
    && m'.counts == AddCount(m, shared.frame, 1).counts
  }

  // the two entries written, one after the other
  lemma TwoEntries(m: Memory, fd: int, td: int, i: int)
    requires Inv(m) && Copyable(m, fd, td, i) && EntryAt(m, fd, i).present
    ensures var shared, ft, tt := EntryAt(m, fd, i).(writable := false), Read(m, 0, fd).frame, Read(m, 0, td).frame;
            var m1 := SetWord(m, tt, i, shared);
            var m2 := SetWord(m1, ft, i, shared);
            && Shape(m1) && OnlySlot(m, m1, td, i) && EntryAt(m1, td, i) == shared
            && Shape(m2) && OnlySlot(m1, m2, fd, i) && EntryAt(m2, fd, i) == shared
            && (forall f :: 0 <= f < FRAMES && f != tt ==> m1.mem[f] == m.mem[f])
            && (forall f :: 0 <= f < FRAMES && f != ft ==> m2.mem[f] == m1.mem[f])
  {
    var shared, tt := EntryAt(m, fd, i).(writable := false), Read(m, 0, td).frame;
    assert Slot(fd, -1) && Slot(td, -1) && Sole(m, fd, -1);
    SetEntry(m, td, i, shared);
    var m1 := SetWord(m, tt, i, shared);
    TablesStayExclusive(m, m1, fd, td, i);
    SetEntry(m1, fd, i, shared);
  }

  // a page of low memory is not counted, and never writable
  lemma CopyLow(m: Memory, fd: int, td: int, i: int)
    requires Inv(m) && Copyable(m, fd, td, i) && EntryAt(m, fd, i).present && Target(m, fd, i) < LOW_FRAME
    ensures SharesSlot(m, SetWord(m, Read(m, 0, td).frame, i, EntryAt(m, fd, i).(writable := false)), fd, td, i)
  {
    TwoEntries(m, fd, td, i);
    assert Target(m, td, -1) == Read(m, 0, td).frame;
    assert EntryAt(m, fd, i) == EntryAt(m, fd, i).(writable := false);
  }

  lemma CopyHigh(m: Memory, fd: int, td: int, i: int)
    requires Inv(m) && Copyable(m, fd, td, i) && EntryAt(m, fd, i).present && Target(m, fd, i) >= LOW_FRAME
    ensures var shared := EntryAt(m, fd, i).(writable := false);
            var m1 := SetWord(SetWord(m, Read(m, 0, td).frame, i, shared), Read(m, 0, fd).frame, i, shared);
            SharesSlot(m, AddCount(m1, shared.frame, 1), fd, td, i)
  {
    TwoEntries(m, fd, td, i);
    assert Target(m, fd, -1) == Read(m, 0, fd).frame && Target(m, td, -1) == Read(m, 0, td).frame;
  }

  lemma CopyEntrySlots(m: Memory, fd: int, td: int, i: int)
    requires Inv(m) && Copyable(m, fd, td, i) && EntryAt(m, fd, i).present
    ensures SharesSlot(m, CopyEntry(m, Read(m, 0, fd).frame, Read(m, 0, td).frame, i), fd, td, i)
  {
    assert EntryAt(m, fd, i) == Read(m, Read(m, 0, fd).frame, i) && Target(m, fd, i) == EntryAt(m, fd, i).frame;
    if Target(m, fd, i) < LOW_FRAME { CopyLow(m, fd, td, i); } else { CopyHigh(m, fd, td, i); }
  }

  lemma TablesStayExclusive(m: Memory, m1: Memory, fd: int, td: int, i: int)
    requires Inv(m) && Copyable(m, fd, td, i) && EntryAt(m, fd, i).present
    requires m1.lo == m.lo && m1.hi == m.hi && m1.held == m.held
    requires OnlySlot(m, m1, td, i) && EntryAt(m1, td, i) == EntryAt(m, fd, i).(writable := false)
    ensures TablesExclusive(m1)
  {
    forall d | Slot(d, -1) && EntryAt(m1, d, -1).present
      ensures Pageable(m1, Target(m1, d, -1)) && Sole(m1, d, -1)
    {
      assert Sole(m, d, -1);
    }
  }

  lemma SharesFairly(m: Memory, m': Memory, fd: int, td: int, i: int)
    requires Inv(m) && Copyable(m, fd, td, i) && EntryAt(m, fd, i).present && SharesSlot(m, m', fd, td, i)
    ensures Redirected(m, m', td, i) && FairTarget(m, m', td, i)
  {}

  lemma SharesCounts(m: Memory, m': Memory, fd: int, td: int, i: int)
    requires Inv(m) && Copyable(m, fd, td, i) && EntryAt(m, fd, i).present && SharesSlot(m, m', fd, td, i)
    ensures CountsFollow(m, m', td, i)
  {
    var f := EntryAt(m, fd, i).frame;
    assert Target(m, fd, i) == f && Target(m', td, i) == f;
    if Pageable(m, f) { CountPositive(m, fd, i); }
    CountAdded(m, m', f);
  }

  lemma CountAdded(m: Memory, m': Memory, f: nat)
    requires Shape(m) && Shape(m') && m'.counts == AddCount(m, f, 1).counts && f < FRAMES
    requires f >= LOW_FRAME ==> m.counts[f - LOW_FRAME] <= 64
    ensures |m'.counts| == |m.counts|
    ensures forall k :: 0 <= k < |m.counts| ==> m'.counts[k] == m.counts[k] + if k == f - LOW_FRAME then 1 else 0
  {}

  lemma SharesSlotKeepsInv(m: Memory, m': Memory, fd: int, td: int, i: int)
    requires Inv(m) && Copyable(m, fd, td, i) && EntryAt(m, fd, i).present && SharesSlot(m, m', fd, td, i)
    ensures Inv(m')
  {
    SharesFairly(m, m', fd, td, i);
    SharesCounts(m, m', fd, td, i);
    RedirectKeepsInv(m, m', td, i);
  }

  lemma CopyEntryStep(m: Memory, fd: int, td: int, i: int)
    requires Inv(m) && Copyable(m, fd, td, i)
    ensures var m' := CopyEntry(m, Read(m, 0, fd).frame, Read(m, 0, td).frame, i);
            && Inv(m') && m'.held == m.held && m'.mem[0] == m.mem[0] && m'.lo == m.lo && m'.hi == m.hi
            && OnlyTarget(m, m', td, i) && Target(m', td, i) == Target(m, fd, i)
            && OnlyPage(m, m', td, i) && PageAt(m', td, i) == PageAt(m, fd, i)
  {
    assert Slot(fd, -1) && Slot(td, -1);
    if EntryAt(m, fd, i).present {
      var m' := CopyEntry(m, Read(m, 0, fd).frame, Read(m, 0, td).frame, i);
      CopyEntrySlots(m, fd, td, i);
      SharesSlotKeepsInv(m, m', fd, td, i);
      forall d, j | Slot(d, j) && 0 <= j && !(d == td && j == i)
        ensures PageAt(m', d, j) == PageAt(m, d, j)
      {
        TableEditsKeepPage(m, m', fd, td, d, j);
      }
    }
  }

  // ----- tables ---------------------------------------------------------------------

  lemma InstallTableStep(m: Memory, d: int)
    requires Inv(m) && Slot(d, -1) && !EntryAt(m, d, -1).present
    ensures var r := InstallTable(m, d);
            && (!r.ok ==> r.m == m)
            && (r.ok ==>
                  && Inv(r.m) && r.m.held == m.held && r.m.lo == m.lo && r.m.hi == m.hi
                  && EntryAt(r.m, d, -1).present && Read(r.m, 0, d).frame == FreeFrame(m)
                  && (forall d2, j :: Slot(d2, j) && !(d2 == d && j == -1) ==> EntryAt(r.m, d2, j) == EntryAt(m, d2, j))
                  && SamePages(m, r.m))
  {
    var t := FreeFrame(m);
    if t != 0 {
      FreeFrameUnused(m);
      var m' := InstallTable(m, d).m;
      InstallTableSlots(m, d);
      RedirectKeepsInv(m, m', d, -1);
    }
  }

  lemma InstallTableSlots(m: Memory, d: int)
    requires Inv(m) && Slot(d, -1) && !EntryAt(m, d, -1).present && FreeFrame(m) != 0
    ensures var m' := InstallTable(m, d).m;
            && m'.held == m.held && !m'.panicked && m'.counts == m.counts[FreeFrame(m) - LOW_FRAME := 1]
            && EntryAt(m', d, -1) == FreshEntry(FreeFrame(m))
            && (forall d2, j :: Slot(d2, j) && !(d2 == d && j == -1) ==> EntryAt(m', d2, j) == EntryAt(m, d2, j))
            && (forall f :: 0 < f < FRAMES && f != FreeFrame(m) ==> m'.mem[f] == m.mem[f])
  {
    FreeFrameUnused(m);
    var m' := InstallTable(m, d).m;
    forall d2, j | Slot(d2, j) && !(d2 == d && j == -1)
      ensures EntryAt(m', d2, j) == EntryAt(m, d2, j)
    {
      assert Slot(d2, -1);
      if d2 != d && EntryAt(m, d2, -1).present {
        assert Target(m, d2, -1) != FreeFrame(m) && Pageable(m, Target(m, d2, -1));
      }
    }
  }

  lemma ClearTableStep(m: Memory, d: int)
    requires Inv(m) && Slot(d, -1) && EntryAt(m, d, -1).present
    requires forall j :: 0 <= j < ENTRIES ==> EntryAt(m, d, j) == ZERO_WORD
    ensures var m' := SetWord(FreePage(m, Read(m, 0, d).frame), 0, d, ZERO_WORD);
            && Inv(m') && m'.held == m.held && m'.lo == m.lo && m'.hi == m.hi
            && EntryAt(m', d, -1) == ZERO_WORD
            && (forall d2, j :: Slot(d2, j) && !(d2 == d && j == -1) ==> EntryAt(m', d2, j) == EntryAt(m, d2, j))
            && SamePages(m, m')
  {
    var t := Read(m, 0, d).frame;
    assert Target(m, d, -1) == t;
    CountPositive(m, d, -1);
    var m1 := FreePage(m, t);
    var m' := SetWord(m1, 0, d, ZERO_WORD);
    forall d2, j | Slot(d2, j) && !(d2 == d && j == -1)
      ensures EntryAt(m', d2, j) == EntryAt(m, d2, j)
    {
      assert Slot(d2, -1);
      assert EntryAt(m, d2, -1).present ==> Pageable(m, Target(m, d2, -1));
    }
    RedirectKeepsInv(m, m', d, -1);
  }

  lemma FreeEntrySlots(m: Memory, d: int, i: int)
    requires Inv(m) && Slot(d, i) && 0 <= i && EntryAt(m, d, -1).present
    ensures var m' := FreeEntry(m, Read(m, 0, d).frame, i);
            && m'.held == m.held && !m'.panicked && m'.lo == m.lo && m'.hi == m.hi
            && EntryAt(m', d, i) == ZERO_WORD && OnlySlot(m, m', d, i)
            && (forall f :: 0 <= f < FRAMES && f != Target(m, d, -1) ==> m'.mem[f] == m.mem[f])
            && m'.counts == if Target(m, d, i) < LOW_FRAME then m.counts else FreePage(m, Target(m, d, i)).counts
  {
    assert Slot(d, -1);
    SetEntry(m, d, i, ZERO_WORD);
    if Pageable(m, Target(m, d, i)) { CountPositive(m, d, i); }
    assert FreeEntry(m, Read(m, 0, d).frame, i).mem == SetWord(m, Read(m, 0, d).frame, i, ZERO_WORD).mem;
  }

  lemma FreeEntryStep(m: Memory, d: int, i: int)
    requires Inv(m) && Slot(d, i) && 0 <= i && EntryAt(m, d, -1).present
    ensures var m' := FreeEntry(m, Read(m, 0, d).frame, i);
            && Inv(m') && m'.held == m.held && m'.mem[0] == m.mem[0] && m'.lo == m.lo && m'.hi == m.hi
            && EntryAt(m', d, i) == ZERO_WORD
            && OnlySlot(m, m', d, i) && OnlyPage(m, m', d, i)
  {
    var m' := FreeEntry(m, Read(m, 0, d).frame, i);
    assert Slot(d, -1);
    FreeEntrySlots(m, d, i);
    if Pageable(m, Target(m, d, i)) { CountPositive(m, d, i); }
    RedirectKeepsInv(m, m', d, i);
    forall d2, j | Slot(d2, j) && 0 <= j && !(d2 == d && j == i)
      ensures PageAt(m', d2, j) == PageAt(m, d2, j)
    {
      TableEditsKeepPage(m, m', d, d, d2, j);
    }
  }

  // ----- single pages ---------------------------------------------------------------

  // what a page holds when low memory is as in m
  function Contents(m: Memory, p: Page): seq<Word> {
    match p
    case Absent => ZeroPage()
    case Low(f) => if f < |m.mem| then m.mem[f] else ZeroPage()
    case Data(ws) => ws
  }

  // a page with a single reference just becomes writable
  lemma AllowInv(m: Memory, d: int, i: int)
    requires Inv(m) && Slot(d, i) && 0 <= i && EntryAt(m, d, i).present && Pageable(m, Target(m, d, i))
    requires m.counts[Target(m, d, i) - LOW_FRAME] == 1
    ensures var m' := SetWord(m, Target(m, d, -1), i, EntryAt(m, d, i).(writable := true));
            && Inv(m') && EntryAt(m', d, i) == EntryAt(m, d, i).(writable := true) && OnlySlot(m, m', d, i)
  {
    assert Slot(d, -1) && Target(m, d, -1) == Read(m, 0, d).frame;
    CountPositive(m, d, i);
    SetEntry(m, d, i, EntryAt(m, d, i).(writable := true));
    RedirectKeepsInv(m, SetWord(m, Target(m, d, -1), i, EntryAt(m, d, i).(writable := true)), d, i);
  }

  lemma AllowPages(m: Memory, d: int, i: int)
    requires Inv(m) && Slot(d, i) && 0 <= i && EntryAt(m, d, i).present
    ensures SamePages(m, SetWord(m, Target(m, d, -1), i, EntryAt(m, d, i).(writable := true)))
  {
    assert Slot(d, -1) && Target(m, d, -1) == Read(m, 0, d).frame;
    var m' := SetWord(m, Target(m, d, -1), i, EntryAt(m, d, i).(writable := true));
    SetEntry(m, d, i, EntryAt(m, d, i).(writable := true));
    forall d2, j | Slot(d2, j) && 0 <= j
      ensures PageAt(m', d2, j) == PageAt(m, d2, j)
    {
      TableEditsKeepPage(m, m', d, d, d2, j);
    }
  }

  lemma AllowStep(m: Memory, d: int, i: int)
    requires Inv(m) && Slot(d, i) && 0 <= i && EntryAt(m, d, i).present && Pageable(m, Target(m, d, i))
    requires m.counts[Target(m, d, i) - LOW_FRAME] == 1
    ensures var r := Unprotect(m, Read(m, 0, d).frame, i);
            && r.ok && Inv(r.m) && r.m.held == m.held && r.m.mem[0] == m.mem[0] && r.m.lo == m.lo && r.m.hi == m.hi
            && EntryAt(r.m, d, i).present && EntryAt(r.m, d, i).writable
            && OnlySlot(m, r.m, d, i) && OnlyPage(m, r.m, d, i)
            && PageAt(r.m, d, i) == Data(Contents(m, PageAt(m, d, i)))
  {
    assert Slot(d, -1) && Target(m, d, -1) == Read(m, 0, d).frame;
    AllowInv(m, d, i);
    AllowPages(m, d, i);
    var m' := SetWord(m, Target(m, d, -1), i, EntryAt(m, d, i).(writable := true));
    assert Unprotect(m, Read(m, 0, d).frame, i).m == m';
    assert PageAt(m', d, i) == PageAt(m, d, i);
  }

  lemma UnprotectStep(m: Memory, d: int, i: int)
    requires Inv(m) && Slot(d, i) && 0 <= i && EntryAt(m, d, i).present && !EntryAt(m, d, i).writable
    ensures var r := Unprotect(m, Read(m, 0, d).frame, i);
            && (!r.ok ==> r.m == m)
            && (r.ok ==>
                  && Inv(r.m) && r.m.held == m.held && r.m.mem[0] == m.mem[0] && r.m.lo == m.lo && r.m.hi == m.hi
                  && EntryAt(r.m, d, i).present && EntryAt(r.m, d, i).writable
                  && OnlySlot(m, r.m, d, i) && OnlyPage(m, r.m, d, i)
                  && PageAt(r.m, d, i) == Data(Contents(m, PageAt(m, d, i))))
  {
    var f := Target(m, d, i);
    assert Slot(d, -1) && f == Read(m, Read(m, 0, d).frame, i).frame;
    if LOW_FRAME <= f && m.counts[f - LOW_FRAME] == 1 {
      AllowStep(m, d, i);
    } else if FreeFrame(m) != 0 {
      SplitStep(m, d, i);
    } else {
      assert Unprotect(m, Read(m, 0, d).frame, i).m == m;
    }
  }

  // m' gives (d, i) a private copy of its page in a fresh frame
  ghost predicate SplitsSlot(m: Memory, m': Memory, d: int, i: int)
    requires Shape(m) && Slot(d, i) && FreeFrame(m) < FRAMES
  {
    var f, page := Target(m, d, i), FreeFrame(m);
    && Shape(m') && m'.held == m.held && !m'.panicked && m'.lo == m.lo && m'.hi == m.hi
    && EntryAt(m', d, i) == FreshEntry(page) && OnlySlot(m, m', d, i)
    && (forall g :: 0 <= g < FRAMES && g != Target(m, d, -1) && g != page ==> m'.mem[g] == m.mem[g])
    && (0 <= f < FRAMES ==> m'.mem[page] == m.mem[f])
  }

  lemma SplitSlots(m: Memory, d: int, i: int)
    requires Inv(m) && Slot(d, i) && 0 <= i && EntryAt(m, d, i).present && FreeFrame(m) != 0
    requires Target(m, d, i) < LOW_FRAME || m.counts[Target(m, d, i) - LOW_FRAME] != 1
    ensures FreeFrame(m) < FRAMES && SplitsSlot(m, Unprotect(m, Read(m, 0, d).frame, i).m, d, i)
  {
    FreeFrameUnused(m);
    var t, f, page := Read(m, 0, d).frame, Target(m, d, i), FreeFrame(m);
    assert Slot(d, -1) && Target(m, d, -1) == t && t != page && f != page;
    assert Sole(m, d, -1) && f != t;
    var m' := Unprotect(m, t, i).m;
    SetEntry(m, d, i, FreshEntry(page));
    var m1 := SetWord(m, t, i, FreshEntry(page));
    assert m'.mem == m1.mem[page := m.mem[f]];
    forall d2, j | Slot(d2, j)
      ensures EntryAt(m', d2, j) == EntryAt(m1, d2, j)
    {
      assert Slot(d2, -1);
      assert EntryAt(m, d2, -1).present ==> Target(m, d2, -1) != page;
    }
  }

  lemma SplitCounts(m: Memory, m': Memory, d: int, i: int)
    requires Inv(m) && Slot(d, i) && 0 <= i && EntryAt(m, d, i).present && FreeFrame(m) != 0
    requires Target(m, d, i) < LOW_FRAME || m.counts[Target(m, d, i) - LOW_FRAME] != 1
    requires m' == Unprotect(m, Read(m, 0, d).frame, i).m && FreeFrame(m) < FRAMES && SplitsSlot(m, m', d, i)
    ensures CountsFollow(m, m', d, i)
  {
    FreeFrameUnused(m);
    if Pageable(m, Target(m, d, i)) { CountPositive(m, d, i); }
  }

  lemma SplitInv(m: Memory, m': Memory, d: int, i: int)
    requires Inv(m) && Slot(d, i) && 0 <= i && EntryAt(m, d, i).present && FreeFrame(m) != 0
    requires Target(m, d, i) < LOW_FRAME || m.counts[Target(m, d, i) - LOW_FRAME] != 1
    requires m' == Unprotect(m, Read(m, 0, d).frame, i).m && FreeFrame(m) < FRAMES && SplitsSlot(m, m', d, i)
    ensures Inv(m')
  {
    FreeFrameUnused(m);
    SplitCounts(m, m', d, i);
    RedirectKeepsInv(m, m', d, i);
  }

  lemma SplitPages(m: Memory, m': Memory, d: int, i: int)
    requires Inv(m) && Slot(d, i) && 0 <= i && EntryAt(m, d, i).present && FreeFrame(m) != 0
    requires FreeFrame(m) < FRAMES && SplitsSlot(m, m', d, i)
    ensures OnlyPage(m, m', d, i) && PageAt(m', d, i) == Data(Contents(m, PageAt(m, d, i)))
  {
    assert Slot(d, -1);
    FreeFrameUnused(m);
    forall d2, j | Slot(d2, j) && 0 <= j && !(d2 == d && j == i)
      ensures PageAt(m', d2, j) == PageAt(m, d2, j)
    {
      assert Sole(m, d, -1) && Target(m, d2, j) != FreeFrame(m);
    }
  }

  lemma SplitStep(m: Memory, d: int, i: int)
    requires Inv(m) && Slot(d, i) && 0 <= i && EntryAt(m, d, i).present && FreeFrame(m) != 0
    requires Target(m, d, i) < LOW_FRAME || m.counts[Target(m, d, i) - LOW_FRAME] != 1
    ensures var m' := Unprotect(m, Read(m, 0, d).frame, i).m;
            && Inv(m') && m'.held == m.held && m'.mem[0] == m.mem[0] && m'.lo == m.lo && m'.hi == m.hi
            && EntryAt(m', d, i).present && EntryAt(m', d, i).writable
            && OnlySlot(m, m', d, i) && OnlyPage(m, m', d, i)
            && PageAt(m', d, i) == Data(Contents(m, PageAt(m, d, i)))
  {
    var m' := Unprotect(m, Read(m, 0, d).frame, i).m;
    assert Slot(d, -1);
    FreeFrameUnused(m);
    SplitSlots(m, d, i);
    SplitInv(m, m', d, i);
    SplitPages(m, m', d, i);
  }

  lemma UnprotectKeepsLow(m: Memory, d: int, i: int)
    requires Inv(m) && Slot(d, i) && 0 <= i && EntryAt(m, d, i).present && !EntryAt(m, d, i).writable
    ensures SameLow(m, Unprotect(m, Read(m, 0, d).frame, i).m)
  {
    assert Slot(d, -1) && Target(m, d, -1) == Read(m, 0, d).frame;
    if FreeFrame(m) != 0 { FreeFrameUnused(m); }
  }

  // marking the entry of a page dirty
  lemma MarkStep(m: Memory, d: int, i: int)
    requires Inv(m) && Slot(d, i) && 0 <= i && EntryAt(m, d, i).present
    ensures var e := EntryAt(m, d, i).(dirty := true); var m' := SetWord(m, Target(m, d, -1), i, e);
            && Inv(m') && m'.held == m.held && m'.lo == m.lo && m'.hi == m.hi
            && EntryAt(m', d, i) == e && Target(m', d, i) == Target(m, d, i) && SamePages(m, m')
  {
    assert Slot(d, -1) && Target(m, d, -1) == Read(m, 0, d).frame;
    var e := EntryAt(m, d, i).(dirty := true);
    var m' := SetWord(m, Target(m, d, -1), i, e);
    SetEntry(m, d, i, e);
    RedirectKeepsInv(m, m', d, i);
    forall d2, j | Slot(d2, j) && 0 <= j
      ensures PageAt(m', d2, j) == PageAt(m, d2, j)
    {
      TableEditsKeepPage(m, m', d, d, d2, j);
    }
  }

  lemma WriteStep(m: Memory, d: int, i: int, w: nat, x: Word)
    requires Inv(m) && Slot(d, i) && 0 <= i && w < ENTRIES && EntryAt(m, d, i).present && EntryAt(m, d, i).writable
    ensures var m' := SetWord(m, Target(m, d, i), w, x);
            && Inv(m') && m'.held == m.held && m'.lo == m.lo && m'.hi == m.hi
            && PageAt(m, d, i).Data? && |PageAt(m, d, i).words| == ENTRIES && EntryAt(m', d, i) == EntryAt(m, d, i)
            && OnlyPage(m, m', d, i) && PageAt(m', d, i) == Data(PageAt(m, d, i).words[w := x])
  {
    var f := Target(m, d, i);
    assert Sole(m, d, i);
    var m' := SetWord(m, f, w, x);
    forall d2, j | Slot(d2, j)
      ensures EntryAt(m', d2, j) == EntryAt(m, d2, j)
    {
      assert Slot(d2, -1);
      assert Target(m, d2, -1) != f;
    }
    RedirectKeepsInv(m, m', d, i);
  }

  lemma TakeStep(m: Memory)
    requires Inv(m) && FreeFrame(m) != 0
    ensures var m' := Take(m, FreeFrame(m));
            && Inv(m') && m'.held == m.held + {FreeFrame(m)} && m'.mem[0] == m.mem[0] && m'.lo == m.lo && m'.hi == m.hi
            && m'.mem[FreeFrame(m)] == ZeroPage()
            && SamePages(m, m') && forall d, i :: Slot(d, i) ==> EntryAt(m', d, i) == EntryAt(m, d, i)
  {
    FreeFrameUnused(m);
    var f := FreeFrame(m);
    var m' := Take(m, f);
    forall d, i | Slot(d, i)
      ensures EntryAt(m', d, i) == EntryAt(m, d, i)
    {
      assert Slot(d, -1);
      assert EntryAt(m, d, -1).present ==> Target(m, d, -1) != f;
    }
    HoldingKeepsInv(m, m');
  }

  lemma HeldCount(m: Memory, f: int)
    requires Inv(m) && f in m.held
    ensures Pageable(m, f) && m.counts[f - LOW_FRAME] == 1
  {
    assert Refs(m, f) == {};
  }

  lemma FreeHeldStep(m: Memory, f: nat)
    requires Inv(m) && f in m.held
    ensures var m' := FreeHeld(m, f);
            && Inv(m') && m'.held == m.held - {f} && m'.mem == m.mem && m'.lo == m.lo && m'.hi == m.hi
            && SamePages(m, m') && forall d, i :: Slot(d, i) ==> EntryAt(m', d, i) == EntryAt(m, d, i)
  {
    HeldCount(m, f);
    HoldingKeepsInv(m, FreeHeld(m, f));
  }

  lemma NeedTableStep(m: Memory, d: int)
    requires Inv(m) && Slot(d, -1)
    ensures var r := NeedTable(m, d);
            && (!r.ok ==> r.m == m)
            && (r.ok ==>
                  && Inv(r.m) && r.m.held == m.held && r.m.lo == m.lo && r.m.hi == m.hi && EntryAt(r.m, d, -1).present
                  && (forall d2, j :: Slot(d2, j) && !(d2 == d && j == -1) ==> EntryAt(r.m, d2, j) == EntryAt(m, d2, j))
                  && SamePages(m, r.m))
  {
    if !Read(m, 0, d).present { InstallTableStep(m, d); }
  }

  // m' maps the held page at (d, i)
  ghost predicate PutsSlot(m: Memory, m': Memory, page: nat, d: int, i: int)
    requires Shape(m) && Slot(d, i) && 0 <= i && Target(m, d, -1) >= 0
  {
    && m' == SetWord(m, Target(m, d, -1), i, FreshEntry(page)).(held := m.held - {page})
    && Shape(m') && EntryAt(m', d, i) == FreshEntry(page) && OnlySlot(m, m', d, i)
  }

  lemma PutEntryInv(m: Memory, m': Memory, page: nat, d: int, i: int)
    requires Inv(m) && Slot(d, i) && 0 <= i && EntryAt(m, d, -1).present && !EntryAt(m, d, i).present && page in m.held
    requires PutsSlot(m, m', page, d, i)
    ensures Inv(m')
  {
    RedirectKeepsInv(m, m', d, i);
  }

  lemma PutEntryPages(m: Memory, m': Memory, page: nat, d: int, i: int)
    requires Inv(m) && Slot(d, i) && 0 <= i && EntryAt(m, d, -1).present && page in m.held
    requires PutsSlot(m, m', page, d, i)
    ensures OnlyPage(m, m', d, i) && PageAt(m', d, i) == Data(m.mem[page])
  {
    assert Slot(d, -1);
    forall d2, j | Slot(d2, j) && 0 <= j && !(d2 == d && j == i)
      ensures PageAt(m', d2, j) == PageAt(m, d2, j)
    {
      TableEditsKeepPage(m, m', d, d, d2, j);
    }
  }

  lemma PutEntryStep(m: Memory, page: nat, d: int, i: int)
    requires Inv(m) && Slot(d, i) && 0 <= i && EntryAt(m, d, -1).present && !EntryAt(m, d, i).present && page in m.held
    ensures var m' := SetWord(m, Read(m, 0, d).frame, i, FreshEntry(page)).(held := m.held - {page});
            && Inv(m') && m'.mem[0] == m.mem[0] && m'.lo == m.lo && m'.hi == m.hi
            && OnlySlot(m, m', d, i) && OnlyPage(m, m', d, i) && PageAt(m', d, i) == Data(m.mem[page])
  {
    var m' := SetWord(m, Read(m, 0, d).frame, i, FreshEntry(page)).(held := m.held - {page});
    assert Slot(d, -1) && Target(m, d, -1) == Read(m, 0, d).frame;
    SetEntry(m, d, i, FreshEntry(page));
    PutEntryInv(m, m', page, d, i);
    PutEntryPages(m, m', page, d, i);
  }

  lemma PutPageStep(m: Memory, page: nat, d: int, i: int)
    requires Inv(m) && Slot(d, i) && 0 <= i && !EntryAt(m, d, i).present && page in m.held
    ensures var r := PutPage(m, page, d, i);
            && (!r.ok ==> r.m == m)
            && (r.ok ==>
                  && Inv(r.m) && r.m.lo == m.lo && r.m.hi == m.hi && r.m.held == m.held - {page}
                  && OnlyPage(m, r.m, d, i) && PageAt(r.m, d, i) == Data(m.mem[page]))
  {
    assert Slot(d, -1);
    NeedTableStep(m, d);
    var r := NeedTable(m, d);
    if r.ok {
      HeldFrameKept(m, page, d);
      PutEntryStep(r.m, page, d, i);
    }
  }

  lemma HeldFrameKept(m: Memory, page: nat, d: int)
    requires Inv(m) && Slot(d, -1) && page in m.held
    ensures NeedTable(m, d).m.mem[page] == m.mem[page]
  {
    if FreeFrame(m) != 0 { FreeFrameUnused(m); }
  }

  lemma GetEmptyPageStep(m: Memory, d: int, i: int)
    requires Inv(m) && Slot(d, i) && 0 <= i && !EntryAt(m, d, i).present
    ensures var r := GetEmptyPage(m, d, i);
            && Inv(r.m) && r.m.lo == m.lo && r.m.hi == m.hi && r.m.held == m.held
            && (!r.ok ==> SamePages(m, r.m) && r.m.counts == m.counts)
            && (r.ok ==> OnlyPage(m, r.m, d, i) && PageAt(r.m, d, i) == Data(ZeroPage()))
  {
    var page := FreeFrame(m);
    if page != 0 {
      FreeFrameUnused(m);
      TakeStep(m);
      var m1 := Take(m, page);
      PutPageStep(m1, page, d, i);
      var r := PutPage(m1, page, d, i);
      if !r.ok { FreeHeldStep(r.m, page); }
    }
  }
}
