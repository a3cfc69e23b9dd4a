/** Physical memory, page tables and page-frame reference counts: the value model of
    mm/memory.c and of copy_mem in kernel/fork.c.

    A 32-bit word is seen through its fields, so that one frame of words can serve as a
    data page, as a page table or (frame 0) as the page directory. Linear addresses are
    given as (directory index, table index, word index). */
module Paging {
  const LOW_FRAME := 256        // LOW_MEM >> 12
  const PAGING_PAGES := 3840    // PAGING_MEMORY >> 12
  const FRAMES := 4096          // every frame mem_map can speak about
  const USED := 100             // mem_map value of memory that is not pageable
  const ENTRIES := 1024         // words in a frame
  const SPACE_DIRS := 16        // directory entries of one task: 64 MB
  const BYTE := 256             // mem_map is an array of unsigned char

  datatype Word = Word(frame: nat, present: bool, writable: bool, user: bool, dirty: bool, rest: nat)

  const ZERO_WORD := Word(0, false, false, false, false, 0)

  // frame | 7
  function FreshEntry(frame: nat): Word { Word(frame, true, true, true, false, 0) }

  /** lo..hi are the pageable frames; held are the frames handed out by get_free_page that
      no table names (task structures, pages on their way into a table). */
  datatype Memory = Memory(lo: nat, hi: nat, counts: seq<nat>, mem: seq<seq<Word>>, held: set<nat>, panicked: bool)

  ghost predicate Shape(m: Memory) {
    && LOW_FRAME <= m.lo <= m.hi <= FRAMES
    && |m.counts| == PAGING_PAGES
    && |m.mem| == FRAMES
    && (forall f :: 0 <= f < FRAMES ==> |m.mem[f]| == ENTRIES)
  }

  predicate Pageable(m: Memory, f: int) { m.lo <= f < m.hi }

  function ZeroPage(): (p: seq<Word>)
    ensures |p| == ENTRIES && forall i :: 0 <= i < ENTRIES ==> p[i] == ZERO_WORD
  {
    seq(ENTRIES, _ => ZERO_WORD)
  }

  function Read(m: Memory, f: nat, i: nat): Word {
    if f < |m.mem| && i < |m.mem[f]| then m.mem[f][i] else ZERO_WORD
  }

  function SetWord(m: Memory, f: nat, i: nat, w: Word): (r: Memory)
    ensures Shape(m) ==> Shape(r)
  {
    if f < |m.mem| && i < |m.mem[f]| then m.(mem := m.mem[f := m.mem[f][i := w]]) else m
  }

  function AddCount(m: Memory, f: nat, delta: int): (r: Memory)
    ensures Shape(m) ==> Shape(r)
  {
    if LOW_FRAME <= f < LOW_FRAME + |m.counts|
    then m.(counts := m.counts[f - LOW_FRAME := (m.counts[f - LOW_FRAME] + delta) % BYTE])
    else m
  }

  /** The state after an operation and whether it succeeded; false is the out-of-memory outcome. */
  datatype Result = Result(m: Memory, ok: bool)

  // ----- allocation -----------------------------------------------------------------

  // the last free frame below index n, or -1
  function LastFree(counts: seq<nat>, n: nat): (k: int)
    requires n <= |counts|
    ensures -1 <= k < n
    ensures k >= 0 ==> counts[k] == 0
    ensures forall j :: k < j < n ==> counts[j] != 0
  {
    if n == 0 then -1 else if counts[n - 1] == 0 then n - 1 else LastFree(counts, n - 1)
  }

  // get_free_page: the frame it would return, or 0
  function FreeFrame(m: Memory): nat {
    var k := LastFree(m.counts, |m.counts|);
    if k < 0 then 0 else k + LOW_FRAME
  }

  // get_free_page: its effect when it returns frame f
  function Take(m: Memory, f: nat): (r: Memory)
    ensures Shape(m) ==> Shape(r)
  {
    if LOW_FRAME <= f < |m.mem| && f - LOW_FRAME < |m.counts|
    then m.(counts := m.counts[f - LOW_FRAME := 1], mem := m.mem[f := ZeroPage()], held := m.held + {f})
    else m
  }

  function FreePage(m: Memory, f: nat): (r: Memory)
    ensures Shape(m) ==> Shape(r)
  {
    if f < LOW_FRAME then m
    else if f >= m.hi || f - LOW_FRAME >= |m.counts| then m.(panicked := true)
    else if m.counts[f - LOW_FRAME] == 0 then m.(panicked := true)
    else m.(counts := m.counts[f - LOW_FRAME := m.counts[f - LOW_FRAME] - 1])
  }

  // a page owned by the kernel itself is given back
  function FreeHeld(m: Memory, f: nat): (r: Memory)
    ensures Shape(m) ==> Shape(r)
  {
    FreePage(m, f).(held := m.held - {f})
  }

  // ----- sharing and unsharing ------------------------------------------------------

  // one turn of the inner loop of copy_page_tables
  function CopyEntry(m: Memory, ft: nat, tt: nat, i: nat): (r: Memory)
    ensures Shape(m) ==> Shape(r)
  {
    var w := Read(m, ft, i);
    if !w.present then m
    else
      var shared := w.(writable := false);
      var m1 := SetWord(m, tt, i, shared);
      if shared.frame >= LOW_FRAME then AddCount(SetWord(m1, ft, i, shared), shared.frame, 1) else m1
  }

  function CopyTable(m: Memory, ft: nat, tt: nat, i: nat): (r: Memory)
    ensures Shape(m) ==> Shape(r)
    decreases ENTRIES - i
  {
    if i >= ENTRIES then m else CopyTable(CopyEntry(m, ft, tt, i), ft, tt, i + 1)
  }

  // get_free_page for a page table, entered in the directory
  function InstallTable(m: Memory, d: nat): (r: Result)
    ensures Shape(m) ==> Shape(r.m)
  {
    var t := FreeFrame(m);
    if t == 0 then Result(m, false)
    else Result(SetWord(Take(m, t), 0, d, FreshEntry(t)).(held := m.held), true)
  }

  // a table for directory entry d, installed if it has none
  function NeedTable(m: Memory, d: nat): (r: Result)
    ensures Shape(m) ==> Shape(r.m)
  {
    if Read(m, 0, d).present then Result(m, true) else InstallTable(m, d)
  }

  // copy_page_tables for n directory entries
  function CopyDirs(m: Memory, from: nat, to: nat, n: nat): (r: Result)
    ensures Shape(m) ==> Shape(r.m)
    decreases n
  {
    if n == 0 then Result(m, true)
    else if Read(m, 0, to).present then Result(m.(panicked := true), false)
    else if !Read(m, 0, from).present then CopyDirs(m, from + 1, to + 1, n - 1)
    else
      var r := InstallTable(m, to);
      if !r.ok then r
      else CopyDirs(CopyTable(r.m, Read(r.m, 0, from).frame, Read(r.m, 0, to).frame, 0), from + 1, to + 1, n - 1)
  }

  // one turn of the inner loop of free_page_tables
  function FreeEntry(m: Memory, t: nat, i: nat): (r: Memory)
    ensures Shape(m) ==> Shape(r)
  {
    var w := Read(m, t, i);
    SetWord(if w.present then FreePage(m, w.frame) else m, t, i, ZERO_WORD)
  }

  function FreeTable(m: Memory, t: nat, i: nat): (r: Memory)
    ensures Shape(m) ==> Shape(r)
    decreases ENTRIES - i
  {
    if i >= ENTRIES then m else FreeTable(FreeEntry(m, t, i), t, i + 1)
  }

  // free_page_tables for n directory entries
  function FreeDirs(m: Memory, from: nat, n: nat): (r: Memory)
    ensures Shape(m) ==> Shape(r)
    decreases n
  {
    if n == 0 then m
    else if !Read(m, 0, from).present then FreeDirs(m, from + 1, n - 1)
    else
      var t := Read(m, 0, from).frame;
      FreeDirs(SetWord(FreePage(FreeTable(m, t, 0), t), 0, from, ZERO_WORD), from + 1, n - 1)
  }

  // copy_mem: the page-table half of fork, with its clean-up
  function CopyMem(m: Memory, from: nat, to: nat, n: nat): (r: Result)
    ensures Shape(m) ==> Shape(r.m)
  {
    var r := CopyDirs(m, from, to, n);
    if r.ok then r else Result(FreeDirs(r.m, to, n), false)
  }

  // un_wp_page on entry i of table t
  function Unprotect(m: Memory, t: nat, i: nat): (r: Result)
    ensures Shape(m) ==> Shape(r.m)
  {
    var e := Read(m, t, i);
    if LOW_FRAME <= e.frame < LOW_FRAME + |m.counts| && m.counts[e.frame - LOW_FRAME] == 1
    then Result(SetWord(m, t, i, e.(writable := true)), true)
    else
      var page := FreeFrame(m);
      if page == 0 then Result(m, false)
      else
        var m1 := Take(m, page);
        var m2 := if e.frame >= LOW_FRAME then AddCount(m1, e.frame, -1) else m1;
        var m3 := SetWord(m2, t, i, FreshEntry(page)).(held := m.held);
        Result(CopyPage(m3, e.frame, page), true)
  }

  // copy_page
  function CopyPage(m: Memory, from: nat, to: nat): (r: Memory)
    ensures Shape(m) ==> Shape(r)
  {
    if from < |m.mem| && to < |m.mem| then m.(mem := m.mem[to := m.mem[from]]) else m
  }

  // put_page of a held page at (d, i)
  function PutPage(m: Memory, page: nat, d: nat, i: nat): (r: Result)
    ensures Shape(m) ==> Shape(r.m)
  {
    var r := NeedTable(m, d);
    if !r.ok then r
    else Result(SetWord(r.m, Read(r.m, 0, d).frame, i, FreshEntry(page)).(held := r.m.held - {page}), true)
  }

  // get_empty_page
  function GetEmptyPage(m: Memory, d: nat, i: nat): (r: Result)
    ensures Shape(m) ==> Shape(r.m)
  {
    var page := FreeFrame(m);
    if page == 0 then Result(m, false)
    else
      var r := PutPage(Take(m, page), page, d, i);
      if r.ok then r else Result(FreeHeld(r.m, page), false)
  }

  datatype Sharing = Shared | NotShared | NoMemory | Panic

  // what try_to_share from directory entry fd to td comes to
  function SharingOutcome(m: Memory, fd: nat, td: nat, i: nat): Sharing {
    var e := Read(m, Read(m, 0, fd).frame, i);
    if !Read(m, 0, fd).present || e.dirty || !e.present then NotShared
    else if e.frame >= m.hi || e.frame < LOW_FRAME then NotShared
    else
      var r := NeedTable(m, td);
      if !r.ok then NoMemory
      else if Read(r.m, Read(r.m, 0, td).frame, i).present then Panic
      else Shared
  }

  // the memory it leaves
  function TryToShare(m: Memory, fd: nat, td: nat, i: nat): (r: Memory)
    ensures Shape(m) ==> Shape(r)
  {
    match SharingOutcome(m, fd, td, i)
    case NotShared => m
    case NoMemory => m
    case Panic => NeedTable(m, td).m.(panicked := true)
    case Shared =>
      var m1 := NeedTable(m, td).m;
      var ft := Read(m1, 0, fd).frame;
      var e := Read(m1, ft, i).(writable := false);
      AddCount(SetWord(SetWord(m1, ft, i, e), Read(m1, 0, td).frame, i, e), e.frame, 1)
  }

  // write_verify on the entry of (d, i)
  function WriteVerify(m: Memory, d: nat, i: nat): (r: Result)
    ensures Shape(m) ==> Shape(r.m)
  {
    var t := Read(m, 0, d).frame;
    if Read(m, 0, d).present && Read(m, t, i).present && !Read(m, t, i).writable then Unprotect(m, t, i)
    else Result(m, true)
  }

  // a user store of word x: the write fault if the entry is read-only, and then the write, for
  // which the processor marks the entry dirty
  function Store(m: Memory, d: nat, i: nat, w: nat, x: Word): (r: Result)
    ensures Shape(m) ==> Shape(r.m)
  {
    var t := Read(m, 0, d).frame;
    if !Read(m, 0, d).present || !Read(m, t, i).present then Result(m, false)
    else
      var r := WriteVerify(m, d, i);
      var e := Read(r.m, t, i);
      if r.ok then Result(SetWord(SetWord(r.m, t, i, e.(dirty := true)), e.frame, w, x), true) else r
  }

  const PAGE := 4096

  // the loop of verify_area from a page number on
  function VerifyFrom(m: Memory, page: nat, left: int): (r: Result)
    ensures Shape(m) ==> Shape(r.m)
    decreases left
  {
    if left <= 0 then Result(m, true)
    else
      var r := WriteVerify(m, page / ENTRIES, page % ENTRIES);
      if !r.ok then r else VerifyFrom(r.m, page + 1, left - PAGE)
  }

  // verify_area for size bytes at the linear address start
  function VerifyArea(m: Memory, start: nat, size: nat): (r: Result)
    ensures Shape(m) ==> Shape(r.m)
  {
    VerifyFrom(m, start / PAGE, size + start % PAGE)
  }

  // directory entries that cover size bytes
  function Dirs(size: nat): nat { (size + 0x3fffff) / 0x400000 }

  // the first directory entry of the 64 MB that task nr owns
  function FirstDir(nr: nat): nat { nr * SPACE_DIRS }
}
