/** Lazy sharing refines eager copying: whole operations on page tables, and runs of them,
    against a view in which every task owns its pages outright. */
module PagingRefinement {
  import opened Paging
  import opened PagingInvariant
  import opened PagingSteps

  // ----- whole tables ---------------------------------------------------------------

  // up to entry i, the table of td shows the pages of fd; nothing else has changed
  ghost predicate TableCopied(m: Memory, m': Memory, fd: int, td: int, i: nat)
    requires Slot(fd, -1)
  {
    && m'.held == m.held && m'.lo == m.lo && m'.hi == m.hi && FreeFrames(m') == FreeFrames(m)
    && (forall d, j :: Slot(d, j) && !(d == td && 0 <= j < i) ==> Target(m', d, j) == Target(m, d, j))
    && (forall d, j :: Slot(d, j) && 0 <= j ==> PageAt(m', d, j) == PageAt(m, if d == td && j < i then fd else d, j))
  }

  // the tables ft of fd and tt of td, the second still empty
  ghost predicate Tables(m: Memory, fd: int, td: int, ft: nat, tt: nat) {
    && Slot(fd, -1) && Slot(td, -1) && fd != td && fd % SPACE_DIRS == td % SPACE_DIRS
    && EntryAt(m, fd, -1).present && EntryAt(m, td, -1).present
    && ft == Read(m, 0, fd).frame && tt == Read(m, 0, td).frame
    && (forall j :: 0 <= j < ENTRIES ==> !EntryAt(m, td, j).present)
  }

  // one entry more, after which the loop goes on from m2
  lemma CopyOneEntry(m: Memory, m1: Memory, fd: int, td: int, ft: nat, tt: nat, i: nat) returns (m2: Memory)
    requires Inv(m1) && i < ENTRIES && Shape(m) && Tables(m, fd, td, ft, tt)
    requires m1.mem[0] == m.mem[0] && TableCopied(m, m1, fd, td, i)
    ensures Inv(m2) && TableCopied(m, m2, fd, td, i + 1) && m2.mem[0] == m.mem[0]
    ensures CopyTable(m1, ft, tt, i) == CopyTable(m2, ft, tt, i + 1)
  {
    assert EntryAt(m1, fd, -1) == EntryAt(m, fd, -1) && EntryAt(m1, td, -1) == EntryAt(m, td, -1);
    assert Target(m1, td, i) == Target(m, td, i);
    CopyEntryStep(m1, fd, td, i);
    CopyEntryFrees(m1, fd, td, i);
    m2 := CopyEntry(m1, ft, tt, i);
  }

  // sharing a page neither takes nor gives back a frame
  lemma CopyEntryFrees(m: Memory, fd: int, td: int, i: int)
    requires Inv(m) && Copyable(m, fd, td, i)
    ensures FreeFrames(CopyEntry(m, Read(m, 0, fd).frame, Read(m, 0, td).frame, i)) == FreeFrames(m)
  {
    var m' := CopyEntry(m, Read(m, 0, fd).frame, Read(m, 0, td).frame, i);
    assert EntryAt(m, fd, i) == Read(m, Read(m, 0, fd).frame, i);
    if EntryAt(m, fd, i).present {
      CopyEntrySlots(m, fd, td, i);
      if Pageable(m, Target(m, fd, i)) { CountPositive(m, fd, i); }
      OneMoreFrees(m, m', EntryAt(m, fd, i).frame);
    }
  }

  // a count that goes up from a positive number
  lemma OneMoreFrees(m: Memory, m': Memory, frame: nat)
    requires m'.counts == AddCount(m, frame, 1).counts && m'.lo == m.lo && m'.hi == m.hi
    requires Pageable(m, frame) && 0 <= frame - LOW_FRAME < |m.counts| ==> 0 < m.counts[frame - LOW_FRAME] < BYTE - 1
    ensures FreeFrames(m') == FreeFrames(m)
  {
    forall f ensures IsFree(m', f) == IsFree(m, f) {}
  }

  lemma CopyTableLoop(m: Memory, fd: int, td: int, ft: nat, tt: nat)
    requires Inv(m) && Tables(m, fd, td, ft, tt)
    ensures var m' := CopyTable(m, ft, tt, 0);
            Inv(m') && m'.mem[0] == m.mem[0] && TableCopied(m, m', fd, td, ENTRIES)
  {
    var i, m1 := 0, m;
    while i < ENTRIES
      invariant 0 <= i <= ENTRIES && Inv(m1) && m1.mem[0] == m.mem[0] && TableCopied(m, m1, fd, td, i)
      invariant CopyTable(m1, ft, tt, i) == CopyTable(m, ft, tt, 0)
    {
      m1 := CopyOneEntry(m, m1, fd, td, ft, tt, i);
      i := i + 1;
    }
  }

  lemma CopyTablePages(m: Memory, fd: int, td: int)
    requires Inv(m) && Slot(fd, -1) && Slot(td, -1) && fd != td && fd % SPACE_DIRS == td % SPACE_DIRS
    requires EntryAt(m, fd, -1).present && EntryAt(m, td, -1).present
    requires forall j :: 0 <= j < ENTRIES ==> !EntryAt(m, td, j).present
    ensures var m' := CopyTable(m, Read(m, 0, fd).frame, Read(m, 0, td).frame, 0);
            && Inv(m') && m'.held == m.held && m'.mem[0] == m.mem[0] && m'.lo == m.lo && m'.hi == m.hi
            && FreeFrames(m') == FreeFrames(m)
            && (forall d, j :: Slot(d, j) && !(d == td && j >= 0) ==> Target(m', d, j) == Target(m, d, j))
            && (forall d, j :: Slot(d, j) && 0 <= j ==> PageAt(m', d, j) == PageAt(m, if d == td then fd else d, j))
  {
    CopyTableLoop(m, fd, td, Read(m, 0, fd).frame, Read(m, 0, td).frame);
  }

  lemma {:induction false} FreeTablePages(m: Memory, d: int, i: nat)
    requires Inv(m) && i <= ENTRIES && Slot(d, -1) && EntryAt(m, d, -1).present
    ensures var m' := FreeTable(m, Read(m, 0, d).frame, i);
            && Inv(m') && m'.held == m.held && m'.mem[0] == m.mem[0] && m'.lo == m.lo && m'.hi == m.hi
            && (forall d2, j :: Slot(d2, j) && !(d2 == d && j >= i) ==> EntryAt(m', d2, j) == EntryAt(m, d2, j))
            && (forall j :: i <= j < ENTRIES ==> EntryAt(m', d, j) == ZERO_WORD)
            && (forall d2, j :: Slot(d2, j) && 0 <= j && !(d2 == d && j >= i) ==> PageAt(m', d2, j) == PageAt(m, d2, j))
    decreases ENTRIES - i
  {
    if i < ENTRIES {
      FreeEntryStep(m, d, i);
      var m1 := FreeEntry(m, Read(m, 0, d).frame, i);
      FreeTablePages(m1, d, i + 1);
      assert EntryAt(m1, d, i) == ZERO_WORD;
    }
  }

  // ----- whole spaces ---------------------------------------------------------------

  // copy_mem's use of copy_page_tables: two disjoint ranges at the same place of two tasks, the second empty
  ghost predicate ForkRange(m: Memory, from: int, to: int, n: nat) {
    && SPACE_DIRS <= from && SPACE_DIRS <= to && from + n <= ENTRIES && to + n <= ENTRIES
    && from % SPACE_DIRS == to % SPACE_DIRS && (from + n <= to || to + n <= from)
    && (forall d :: to <= d < to + n ==> !Read(m, 0, d).present)
  }

  predicate Within(d: int, from: int, n: nat) { from <= d < from + n }

  // m' is m with the n directory entries at from copied to to, completely if ok
  ghost predicate Copied(m: Memory, m': Memory, from: int, to: int, n: nat, ok: bool) {
    && m'.held == m.held && m'.lo == m.lo && m'.hi == m.hi
    && (forall d, j :: Slot(d, j) && !Within(d, to, n) ==> Target(m', d, j) == Target(m, d, j))
    && (forall d, j :: Slot(d, j) && 0 <= j && !Within(d, to, n) ==> PageAt(m', d, j) == PageAt(m, d, j))
    && (ok ==> forall d, j :: Slot(d, j) && 0 <= j && Within(d, to, n) && Slot(d - to + from, j) ==>
                 PageAt(m', d, j) == PageAt(m, d - to + from, j))
  }

  lemma CopiedThen(m: Memory, m1: Memory, m2: Memory, from: int, to: int, n: nat, ok: bool)
    requires n > 0 && ForkRange(m, from, to, n)
    requires Copied(m, m1, from, to, 1, true) && Copied(m1, m2, from + 1, to + 1, n - 1, ok)
    ensures Copied(m, m2, from, to, n, ok)
  {
    if ok {
      forall d, j | Slot(d, j) && 0 <= j && Within(d, to, n) && Slot(d - to + from, j)
        ensures PageAt(m2, d, j) == PageAt(m, d - to + from, j)
      {
        if d == to {
          assert PageAt(m2, d, j) == PageAt(m1, d, j);
        } else {
          assert PageAt(m2, d, j) == PageAt(m1, d - to + from, j);
        }
      }
    }
  }

  // m1 is m with an empty table in directory entry d
  ghost predicate TableAdded(m: Memory, m1: Memory, d: int)
    requires Slot(d, -1)
  {
    && Inv(m1) && m1.held == m.held && m1.lo == m.lo && m1.hi == m.hi && EntryAt(m1, d, -1).present
    && (forall d2, j :: Slot(d2, j) && !(d2 == d && j == -1) ==> EntryAt(m1, d2, j) == EntryAt(m, d2, j))
    && SamePages(m, m1)
  }

  // one turn of the outer loop of copy_page_tables
  lemma CopyOneDir(m: Memory, m1: Memory, from: int, to: int)
    requires Slot(from, -1) && Slot(to, -1) && from != to && from % SPACE_DIRS == to % SPACE_DIRS
    requires EntryAt(m, from, -1).present && !EntryAt(m, to, -1).present && TableAdded(m, m1, to)
    ensures var m2 := CopyTable(m1, Read(m1, 0, from).frame, Read(m1, 0, to).frame, 0);
            && Inv(m2) && m2.mem[0] == m1.mem[0] && Copied(m, m2, from, to, 1, true)
            && FreeFrames(m2) == FreeFrames(m1)
  {
    CopyTablePages(m1, from, to);
  }

  lemma ForkRangeRest(m: Memory, m1: Memory, m2: Memory, from: int, to: int, n: nat)
    requires n > 0 && ForkRange(m, from, to, n) && Shape(m1) && Shape(m2) && TableAdded(m, m1, to)
    requires m2.mem[0] == m1.mem[0]
    ensures ForkRange(m2, from + 1, to + 1, n - 1)
    ensures forall d :: SPACE_DIRS <= d < ENTRIES && d != to ==> Read(m2, 0, d).present == Read(m, 0, d).present
  {
    forall d | SPACE_DIRS <= d < ENTRIES && d != to
      ensures Read(m2, 0, d).present == Read(m, 0, d).present
    {
      assert EntryAt(m1, d, -1) == EntryAt(m, d, -1);
    }
    forall d | to + 1 <= d < to + 1 + (n - 1)
      ensures !Read(m2, 0, d).present
    {
      assert EntryAt(m1, d, -1) == EntryAt(m, d, -1);
    }
    SamePlace(from, to);
  }

  // the next entries have the same place in their spaces, too
  lemma SamePlace(a: int, b: int)
    requires a % SPACE_DIRS == b % SPACE_DIRS
    ensures (a + 1) % SPACE_DIRS == (b + 1) % SPACE_DIRS
  {}

  lemma NothingToCopy(m: Memory, from: int, to: int, n: nat)
    requires n > 0 && ForkRange(m, from, to, n) && !Read(m, 0, from).present
    ensures ForkRange(m, from + 1, to + 1, n - 1) && Copied(m, m, from, to, 1, true)
  {
    assert Slot(from, -1) && Slot(to, -1);
  }

  // the state after one turn of the outer loop
  ghost function AfterOneDir(m: Memory, from: nat, to: nat): Memory {
    if !Read(m, 0, from).present then m
    else
      var m1 := InstallTable(m, to).m;
      CopyTable(m1, Read(m1, 0, from).frame, Read(m1, 0, to).frame, 0)
  }

  lemma CopyTurn(m: Memory, from: int, to: int, n: nat)
    requires n > 0 && Inv(m) && ForkRange(m, from, to, n) && (Read(m, 0, from).present ==> InstallTable(m, to).ok)
    ensures var m2 := AfterOneDir(m, from, to);
            && Inv(m2) && ForkRange(m2, from + 1, to + 1, n - 1) && Copied(m, m2, from, to, 1, true)
            && FreeFrames(m2) == FreeFrames(m) - (if Read(m, 0, from).present then {FreeFrame(m) as int} else {})
            && (Read(m, 0, from).present ==> FreeFrame(m) in FreeFrames(m))
            && (forall d :: SPACE_DIRS <= d < ENTRIES && d != to ==> Read(m2, 0, d).present == Read(m, 0, d).present)
  {
    assert Slot(from, -1) && Slot(to, -1) && !Read(m, 0, to).present;
    if !Read(m, 0, from).present {
      NothingToCopy(m, from, to, n);
    } else {
      var m1 := InstallTable(m, to).m;
      InstallTableStep(m, to);
      InstallTakes(m, to);
      assert TableAdded(m, m1, to);
      CopyOneDir(m, m1, from, to);
      ForkRangeRest(m, m1, AfterOneDir(m, from, to), from, to, n);
    }
  }

  // a table costs the frame that get_free_page finds
  lemma InstallTakes(m: Memory, d: nat)
    requires Inv(m) && InstallTable(m, d).ok
    ensures FreeFrame(m) in FreeFrames(m)
    ensures FreeFrames(InstallTable(m, d).m) == FreeFrames(m) - {FreeFrame(m) as int}
  {
    HighestFreeFrame(m);
    var m1 := InstallTable(m, d).m;
    assert m1.counts == m.counts[FreeFrame(m) - LOW_FRAME := 1];
    forall f ensures IsFree(m1, f) <==> IsFree(m, f) && f != FreeFrame(m) {}
  }

  lemma CopyStops(m: Memory, from: int, to: int, n: nat)
    requires n > 0 && Inv(m) && ForkRange(m, from, to, n) && Read(m, 0, from).present && !InstallTable(m, to).ok
    ensures CopyDirs(m, from, to, n) == Result(m, false) && Copied(m, m, from, to, n, false)
  {
    assert !Read(m, 0, to).present;
  }

  lemma CopyContinues(m: Memory, from: int, to: int, n: nat)
    requires n > 0 && Inv(m) && ForkRange(m, from, to, n) && (Read(m, 0, from).present ==> InstallTable(m, to).ok)
    ensures CopyDirs(m, from, to, n) == CopyDirs(AfterOneDir(m, from, to), from + 1, to + 1, n - 1)
  {
    assert !Read(m, 0, to).present;
  }

  lemma {:induction false} CopyDirsPages(m: Memory, from: int, to: int, n: nat)
    requires Inv(m) && ForkRange(m, from, to, n)
    ensures Inv(CopyDirs(m, from, to, n).m)
    ensures Copied(m, CopyDirs(m, from, to, n).m, from, to, n, CopyDirs(m, from, to, n).ok)
    decreases n
  {
    if n > 0 {
      if Read(m, 0, from).present && !InstallTable(m, to).ok {
        CopyStops(m, from, to, n);
      } else {
        var m2 := AfterOneDir(m, from, to);
        CopyTurn(m, from, to, n);
        CopyContinues(m, from, to, n);
        CopyDirsPages(m2, from + 1, to + 1, n - 1);
        var rest := CopyDirs(m2, from + 1, to + 1, n - 1);
        CopiedThen(m, m2, rest.m, from, to, n, rest.ok);
      }
    }
  }

  // m' is m with n directory entries at from emptied
  ghost predicate Emptied(m: Memory, m': Memory, from: int, n: nat) {
    && m'.held == m.held && m'.lo == m.lo && m'.hi == m.hi
    && (forall d, j :: Slot(d, j) && !Within(d, from, n) ==> EntryAt(m', d, j) == EntryAt(m, d, j))
    && (forall d, j :: Slot(d, j) && Within(d, from, n) ==> !EntryAt(m', d, j).present)
    && (forall d, j :: Slot(d, j) && 0 <= j && !Within(d, from, n) ==> PageAt(m', d, j) == PageAt(m, d, j))
  }

  lemma FreeOneDir(m: Memory, d: int)
    requires Inv(m) && Slot(d, -1) && Read(m, 0, d).present
    ensures var t := Read(m, 0, d).frame;
            var m' := SetWord(FreePage(FreeTable(m, t, 0), t), 0, d, ZERO_WORD);
            Inv(m') && Emptied(m, m', d, 1)
  {
    var t := Read(m, 0, d).frame;
    FreeTablePages(m, d, 0);
    var m1 := FreeTable(m, t, 0);
    assert EntryAt(m1, d, -1) == EntryAt(m, d, -1);
    ClearTableStep(m1, d);
  }

  lemma EmptiedThen(m: Memory, m1: Memory, m2: Memory, from: int, n: nat)
    requires n > 0 && Emptied(m, m1, from, 1) && Emptied(m1, m2, from + 1, n - 1)
    ensures Emptied(m, m2, from, n)
  {}

  lemma NothingToFree(m: Memory, from: int)
    requires Slot(from, -1) && !Read(m, 0, from).present
    ensures Emptied(m, m, from, 1)
  {}

  // the state after one turn of the outer loop
  ghost function WithoutDir(m: Memory, d: nat): Memory {
    var t := Read(m, 0, d).frame;
    if Read(m, 0, d).present then SetWord(FreePage(FreeTable(m, t, 0), t), 0, d, ZERO_WORD) else m
  }

  lemma FreeTurn(m: Memory, from: int, n: nat)
    requires Inv(m) && n > 0 && SPACE_DIRS <= from && from + n <= ENTRIES
    ensures Inv(WithoutDir(m, from)) && Emptied(m, WithoutDir(m, from), from, 1)
    ensures FreeDirs(m, from, n) == FreeDirs(WithoutDir(m, from), from + 1, n - 1)
  {
    assert Slot(from, -1);
    if Read(m, 0, from).present { FreeOneDir(m, from); } else { NothingToFree(m, from); }
  }

  lemma {:induction false} FreeDirsPages(m: Memory, from: int, n: nat)
    requires Inv(m) && SPACE_DIRS <= from && from + n <= ENTRIES
    ensures Inv(FreeDirs(m, from, n)) && Emptied(m, FreeDirs(m, from, n), from, n)
    decreases n
  {
    if n > 0 {
      var m1 := WithoutDir(m, from);
      FreeTurn(m, from, n);
      FreeDirsPages(m1, from + 1, n - 1);
      EmptiedThen(m, m1, FreeDirs(m, from, n), from, n);
    }
  }

  // ----- fork -----------------------------------------------------------------------

  // slots and held frames determine every reference count
  lemma CountsDetermined(m: Memory, m': Memory)
    requires Inv(m) && Inv(m') && m'.held == m.held && m'.lo == m.lo && m'.hi == m.hi
    requires forall d, j :: Slot(d, j) ==> Target(m', d, j) == Target(m, d, j)
    ensures m'.counts == m.counts
  {
    forall k | 0 <= k < PAGING_PAGES
      ensures m'.counts[k] == m.counts[k]
    {
      var f := k + LOW_FRAME;
      SameRefs(m, m', f);
      assert m.counts[f - LOW_FRAME] == if Pageable(m, f) then |Refs(m, f)| + Holds(m, f) else USED;
      assert m'.counts[f - LOW_FRAME] == if Pageable(m', f) then |Refs(m', f)| + Holds(m', f) else USED;
    }
  }

  /** copy_mem either gives the child every page of the parent, or leaves every page, every
      table and every reference count as they were. */
  lemma ForkCopiesOrRestores(m: Memory, from: int, to: int, n: nat)
    requires Inv(m) && ForkRange(m, from, to, n)
    ensures var r := CopyMem(m, from, to, n);
            && Inv(r.m) && r.m.held == m.held && r.m.lo == m.lo && r.m.hi == m.hi
            && (forall d, j :: Slot(d, j) && 0 <= j && !Within(d, to, n) ==> PageAt(r.m, d, j) == PageAt(m, d, j))
            && (r.ok ==> forall d, j :: Slot(d, j) && 0 <= j && Within(d, to, n) && Slot(d - to + from, j) ==>
                           PageAt(r.m, d, j) == PageAt(m, d - to + from, j))
            && (!r.ok ==> r.m.counts == m.counts && SamePages(m, r.m)
                          && forall d, j :: Slot(d, j) ==> Target(r.m, d, j) == Target(m, d, j))
  {
    CopyDirsPages(m, from, to, n);
    var r := CopyDirs(m, from, to, n);
    if !r.ok {
      FreeDirsPages(r.m, to, n);
      var m' := FreeDirs(r.m, to, n);
      forall d, j | Slot(d, j)
        ensures Target(m', d, j) == Target(m, d, j)
        ensures 0 <= j ==> PageAt(m', d, j) == PageAt(m, d, j)
      {
        if Within(d, to, n) { assert EntryAt(m, d, -1) == Read(m, 0, d); }
      }
      CountsDetermined(m, m');
    }
  }

  // ----- stores, sharing and write checks -------------------------------------------

  /** A store changes exactly the page stored to, whatever is shared behind it, and leaves its
      entry dirty. */
  lemma StorePages(m: Memory, d: int, i: int, w: nat, x: Word)
    requires Inv(m) && Slot(d, i) && 0 <= i && w < ENTRIES
    ensures var r := Store(m, d, i, w, x);
            && Inv(r.m) && r.m.held == m.held && r.m.lo == m.lo && r.m.hi == m.hi
            && (!r.ok ==> r.m == m)
            && (PageAt(m, d, i).Absent? ==> !r.ok)
            && OnlyPage(m, r.m, d, i)
            && |Contents(m, PageAt(m, d, i))| == ENTRIES
            && (r.ok ==>
                  EntryAt(r.m, d, i).dirty && PageAt(r.m, d, i) == Data(Contents(m, PageAt(m, d, i))[w := x]))
  {
    assert Slot(d, -1);
    if EntryAt(m, d, i).present {
      VerifyPages(m, d, i);
      var r := WriteVerify(m, d, i);
      if r.ok {
        assert Read(r.m, 0, d) == Read(m, 0, d);
        MarkedWrite(r.m, d, i, w, x);
      }
    }
  }

  // the write itself, through a writable entry
  lemma MarkedWrite(m: Memory, d: int, i: int, w: nat, x: Word)
    requires Inv(m) && Slot(d, i) && 0 <= i && w < ENTRIES && EntryAt(m, d, i).present && EntryAt(m, d, i).writable
    ensures var e := EntryAt(m, d, i);
            var m' := SetWord(SetWord(m, Read(m, 0, d).frame, i, e.(dirty := true)), e.frame, w, x);
            && Inv(m') && m'.held == m.held && m'.lo == m.lo && m'.hi == m.hi
            && PageAt(m, d, i).Data? && |PageAt(m, d, i).words| == ENTRIES && EntryAt(m', d, i).dirty
            && OnlyPage(m, m', d, i) && PageAt(m', d, i) == Data(PageAt(m, d, i).words[w := x])
  {
    assert Slot(d, -1) && Target(m, d, -1) == Read(m, 0, d).frame;
    MarkStep(m, d, i);
    WriteStep(SetWord(m, Target(m, d, -1), i, EntryAt(m, d, i).(dirty := true)), d, i, w, x);
  }

  lemma VerifyPages(m: Memory, d: int, i: int)
    requires Inv(m) && Slot(d, i) && 0 <= i
    ensures var r := WriteVerify(m, d, i);
            && Inv(r.m) && r.m.held == m.held && SameLow(m, r.m) && r.m.lo == m.lo && r.m.hi == m.hi
            && OnlySlot(m, r.m, d, i) && OnlyPage(m, r.m, d, i)
            && (!r.ok ==> r.m == m)
            && (r.ok && EntryAt(m, d, i).present ==>
                  && EntryAt(r.m, d, i).present && EntryAt(r.m, d, i).writable
                  && PageAt(r.m, d, i) == Data(Contents(m, PageAt(m, d, i))))
            && (!EntryAt(m, d, i).present ==> r == Result(m, true))
  {
    if EntryAt(m, d, i).present && !EntryAt(m, d, i).writable { UnprotectStep(m, d, i); UnprotectKeepsLow(m, d, i); }
  }

  lemma ShareSlots(m: Memory, fd: int, td: int, i: int)
    requires Inv(m) && Copyable(m, fd, td, i) && EntryAt(m, fd, i).present && LOW_FRAME <= EntryAt(m, fd, i).frame
    ensures var ft := Read(m, 0, fd).frame;
            var e := Read(m, ft, i).(writable := false);
            SharesSlot(m, AddCount(SetWord(SetWord(m, ft, i, e), Read(m, 0, td).frame, i, e), e.frame, 1), fd, td, i)
  {
    var ft, tt := Read(m, 0, fd).frame, Read(m, 0, td).frame;
    assert Slot(fd, -1) && Slot(td, -1) && Sole(m, fd, -1) && Target(m, fd, -1) == ft && Target(m, td, -1) == tt;
    CopyEntrySlots(m, fd, td, i);
    var e := Read(m, ft, i).(writable := false);
    assert SetWord(SetWord(m, ft, i, e), tt, i, e).mem == SetWord(SetWord(m, tt, i, e), ft, i, e).mem;
  }

  lemma SharedPages(m: Memory, m': Memory, fd: int, td: int, i: int)
    requires Inv(m) && Copyable(m, fd, td, i) && EntryAt(m, fd, i).present && SharesSlot(m, m', fd, td, i)
    ensures Inv(m') && OnlyPage(m, m', td, i) && PageAt(m', td, i) == PageAt(m, fd, i)
    ensures EntryAt(m', td, i).present && !EntryAt(m', td, i).writable && !EntryAt(m', fd, i).writable
  {
    SharesSlotKeepsInv(m, m', fd, td, i);
    forall d, j | Slot(d, j) && 0 <= j && !(d == td && j == i)
      ensures PageAt(m', d, j) == PageAt(m, d, j)
    {
      TableEditsKeepPage(m, m', fd, td, d, j);
    }
    assert Sole(m, fd, -1) && Sole(m, td, -1);
  }

  // try_to_share for a page its caller does not have
  lemma SharePages(m: Memory, fd: int, td: int, i: int)
    requires Inv(m) && Slot(fd, i) && Slot(td, i) && 0 <= i && fd != td && fd % SPACE_DIRS == td % SPACE_DIRS
    requires !EntryAt(m, td, i).present
    ensures var m' := TryToShare(m, fd, td, i);
            && Inv(m') && m'.held == m.held && m'.lo == m.lo && m'.hi == m.hi
            && SharingOutcome(m, fd, td, i) != Panic
            && OnlyPage(m, m', td, i)
            && (SharingOutcome(m, fd, td, i) != Shared ==> m' == m)
            && (SharingOutcome(m, fd, td, i) == Shared ==>
                  PageAt(m', td, i) == PageAt(m, fd, i) && !EntryAt(m', td, i).writable && !EntryAt(m', fd, i).writable)
  {
    assert Slot(fd, -1) && Slot(td, -1);
    NeedTableStep(m, td);
    var r := NeedTable(m, td);
    if r.ok {
      assert EntryAt(r.m, fd, -1) == EntryAt(m, fd, -1);
      assert EntryAt(r.m, fd, i) == EntryAt(m, fd, i) && EntryAt(r.m, td, i) == EntryAt(m, td, i);
      if SharingOutcome(m, fd, td, i) == Shared {
        ShareSlots(r.m, fd, td, i);
        SharedPages(r.m, TryToShare(m, fd, td, i), fd, td, i);
      }
    }
  }

  // page q is among those that left bytes from the start of page p touch
  predicate Touched(q: int, p: int, left: int) { p <= q && (q - p) * PAGE < left }

  function PageNumber(d: int, i: int): int { d * ENTRIES + i }

  lemma TouchedFirst(p: int, left: int, q: int)
    requires left > 0
    ensures Touched(q, p, left) <==> q == p || Touched(q, p + 1, left - PAGE)
  {}

  // pages read as before, but a low page may have become a copy of itself
  ghost predicate ReadsAlike(m: Memory, m': Memory) {
    forall d, i :: Slot(d, i) && 0 <= i ==>
      || PageAt(m', d, i) == PageAt(m, d, i)
      || (PageAt(m, d, i).Low? && PageAt(m', d, i) == Data(Contents(m, PageAt(m, d, i))))
  }

  ghost predicate EntriesKept(m: Memory, m': Memory, p: int, left: int) {
    forall d, i :: Slot(d, i) && 0 <= i && !Touched(PageNumber(d, i), p, left) ==> EntryAt(m', d, i) == EntryAt(m, d, i)
  }

  ghost predicate AllWritable(m: Memory, p: int, left: int) {
    forall d, i :: Slot(d, i) && 0 <= i && Touched(PageNumber(d, i), p, left) && EntryAt(m, d, i).present ==>
      EntryAt(m, d, i).writable
  }

  lemma VerifyTurn(m: Memory, m1: Memory, m2: Memory, d0: int, i0: int, left: int, ok: bool)
    requires left > 0 && Slot(d0, i0) && 0 <= i0 && OnlySlot(m, m1, d0, i0)
    requires EntryAt(m1, d0, i0).present ==> EntryAt(m1, d0, i0).writable
    requires ok ==> EntriesKept(m1, m2, PageNumber(d0, i0) + 1, left - PAGE)
    requires ok ==> AllWritable(m2, PageNumber(d0, i0) + 1, left - PAGE)
    ensures ok ==> EntriesKept(m, m2, PageNumber(d0, i0), left) && AllWritable(m2, PageNumber(d0, i0), left)
  {
    var p := PageNumber(d0, i0);
    forall d, i | Slot(d, i) && 0 <= i
      ensures Touched(PageNumber(d, i), p, left) <==>
        (d == d0 && i == i0) || Touched(PageNumber(d, i), p + 1, left - PAGE)
      ensures !Touched(p, p + 1, left - PAGE)
    {
      TouchedFirst(p, left, PageNumber(d, i));
    }
  }

  lemma ReadsAlikeThen(m: Memory, m1: Memory, m2: Memory)
    requires Shape(m) && Shape(m1) && Shape(m2) && SameLow(m, m1) && SameLow(m1, m2) && ReadsAlike(m, m1)
    requires ReadsAlike(m1, m2)
    ensures ReadsAlike(m, m2) && SameLow(m, m2)
  {}

  lemma PageSplit(p: nat)
    requires SPACE_DIRS * ENTRIES <= p < ENTRIES * ENTRIES
    ensures Slot(p / ENTRIES, p % ENTRIES) && p == PageNumber(p / ENTRIES, p % ENTRIES)
  {}

  // one turn and what the others do
  lemma VerifyThen(m: Memory, m1: Memory, r: Result, d: int, i: int, left: int)
    requires Shape(m) && Shape(m1) && Shape(r.m) && left > 0 && Slot(d, i) && 0 <= i && OnlySlot(m, m1, d, i)
    requires SameLow(m, m1) && SameLow(m1, r.m) && ReadsAlike(m, m1) && ReadsAlike(m1, r.m)
    requires EntryAt(m1, d, i).present ==> EntryAt(m1, d, i).writable
    requires r.ok ==> EntriesKept(m1, r.m, PageNumber(d, i) + 1, left - PAGE)
    requires r.ok ==> AllWritable(r.m, PageNumber(d, i) + 1, left - PAGE)
    ensures SameLow(m, r.m) && ReadsAlike(m, r.m)
    ensures r.ok ==> EntriesKept(m, r.m, PageNumber(d, i), left) && AllWritable(r.m, PageNumber(d, i), left)
  {
    ReadsAlikeThen(m, m1, r.m);
    VerifyTurn(m, m1, r.m, d, i, left, r.ok);
  }

  // one turn of verify_area's loop, after which it goes on from m1
  lemma VerifyOne(m: Memory, p: nat, left: int) returns (m1: Memory, ok: bool, d: int, i: int)
    requires Inv(m) && SPACE_DIRS * ENTRIES <= p && left > 0 && (ENTRIES * ENTRIES - p) * PAGE >= left
    ensures Slot(d, i) && 0 <= i && p == PageNumber(d, i)
    ensures Inv(m1) && SameLow(m, m1) && ReadsAlike(m, m1) && OnlySlot(m, m1, d, i)
    ensures ok && EntryAt(m1, d, i).present ==> EntryAt(m1, d, i).writable
    ensures VerifyFrom(m, p, left) == if ok then VerifyFrom(m1, p + 1, left - PAGE) else Result(m1, false)
  {
    PageSplit(p);
    d, i := p / ENTRIES, p % ENTRIES;
    VerifyPages(m, d, i);
    var r := WriteVerify(m, d, i);
    m1, ok := r.m, r.ok;
  }

  lemma {:induction false} VerifyFromPages(m: Memory, p: nat, left: int)
    requires Inv(m) && SPACE_DIRS * ENTRIES <= p && (left > 0 ==> (ENTRIES * ENTRIES - p) * PAGE >= left)
    ensures var r := VerifyFrom(m, p, left);
            && Inv(r.m) && SameLow(m, r.m) && ReadsAlike(m, r.m)
            && (r.ok ==> EntriesKept(m, r.m, p, left) && AllWritable(r.m, p, left))
    decreases left
  {
    if left > 0 {
      var m1, ok, d, i := VerifyOne(m, p, left);
      if ok {
        VerifyFromPages(m1, p + 1, left - PAGE);
        VerifyThen(m, m1, VerifyFrom(m1, p + 1, left - PAGE), d, i, left);
      }
    }
  }

  // the page has no byte of the area
  predicate Outside(q: int, start: nat, size: nat) { q * PAGE + PAGE <= start || start + size <= q * PAGE }

  lemma OutsideUntouched(q: int, start: nat, size: nat)
    requires Outside(q, start, size)
    ensures !Touched(q, start / PAGE, size + start % PAGE)
  {}

  /** verify_area makes every present page under [start, start + size) writable, so that the
      kernel can write there without going through a write fault, touches no other page, and
      shows no task a change. */
  lemma VerifyAreaPages(m: Memory, start: nat, size: nat)
    requires Inv(m) && SPACE_DIRS * ENTRIES * PAGE <= start && start + size <= ENTRIES * ENTRIES * PAGE
    ensures var r := VerifyArea(m, start, size);
            && Inv(r.m)
            && ReadsAlike(m, r.m)
            && (r.ok ==> forall a {:trigger a / PAGE} :: start <= a < start + size ==>
                           var e := EntryAt(r.m, a / PAGE / ENTRIES, a / PAGE % ENTRIES);
                           e.present ==> e.writable)
            && (r.ok ==> forall d, i :: Slot(d, i) && 0 <= i && Outside(PageNumber(d, i), start, size) ==>
                           EntryAt(r.m, d, i) == EntryAt(m, d, i))
  {
    var p, left := start / PAGE, size + start % PAGE;
    VerifyFromPages(m, p, left);
    var r := VerifyArea(m, start, size);
    if r.ok {
      forall d, i | Slot(d, i) && 0 <= i && Outside(PageNumber(d, i), start, size)
        ensures EntryAt(r.m, d, i) == EntryAt(m, d, i)
      {
        OutsideUntouched(PageNumber(d, i), start, size);
      }
      forall a {:trigger a / PAGE} | start <= a < start + size
        ensures var e := EntryAt(r.m, a / PAGE / ENTRIES, a / PAGE % ENTRIES); e.present ==> e.writable
      {
        var d, i := a / PAGE / ENTRIES, a / PAGE % ENTRIES;
        assert Slot(d, i) && PageNumber(d, i) == a / PAGE;
        assert Touched(PageNumber(d, i), p, left);
      }
    }
  }

  /** copy_mem's arguments make a fork range: the bases are multiples of 64 MB, the limit is
      within 64 MB, and the child's slot is unused. */
  lemma TaskForkRange(m: Memory, parent: nat, child: nat, limit: nat)
    requires Shape(m) && 1 <= parent < 64 && 1 <= child < 64 && parent != child && limit <= 0x4000000
    requires forall d :: FirstDir(child) <= d < FirstDir(child) + SPACE_DIRS ==> !Read(m, 0, d).present
    ensures ForkRange(m, FirstDir(parent), FirstDir(child), Dirs(limit))
    ensures limit <= Dirs(limit) * 0x400000 < limit + 0x400000
  {}
}
