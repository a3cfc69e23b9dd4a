/** mm/memory.c and copy_mem as they run: mem_map and physical memory updated in place by
    nested loops. Each method is tied to the function of module Paging that describes it. */
module PageManager {
  import opened Paging
  import opened PagingInvariant
  import opened PagingRefinement

  class PhysicalMemory {
    const lo: nat                     // first pageable frame
    const hi: nat                     // HIGH_MEMORY >> 12
    const memMap: array<nat>
    const mem: array<seq<Word>>       // frame 0 is the page directory
    ghost var held: set<nat>
    var panicked: bool

    ghost function St(): Memory
      reads this, memMap, mem
    {
      Memory(lo, hi, memMap[..], mem[..], held, panicked)
    }

    ghost predicate Valid()
      reads this, memMap, mem
    {
      Shape(St()) && memMap as object != mem as object
    }

    // mem_init
    constructor (lo: nat, hi: nat)
      requires LOW_FRAME <= lo <= hi <= FRAMES
      ensures Valid() && fresh(memMap) && fresh(mem)
      ensures Booted(St()) && this.lo == lo && this.hi == hi
    {
      this.lo, this.hi, held, panicked := lo, hi, {}, false;
      memMap := new nat[PAGING_PAGES](_ => USED);
      var zero := ZeroPage();
      mem := new seq<Word>[FRAMES](_ => zero);
      new;
      for k := lo - LOW_FRAME to hi - LOW_FRAME
        invariant forall j :: 0 <= j < PAGING_PAGES ==> memMap[j] == if lo - LOW_FRAME <= j < k then 0 else USED
        invariant forall f :: 0 <= f < FRAMES ==> mem[f] == zero
        invariant !panicked && held == {}
      {
        memMap[k] := 0;
      }
    }

    function ReadWord(f: nat, i: nat): (w: Word)
      requires Valid()
      reads this, memMap, mem
      ensures w == Read(St(), f, i)
    {
      if f < mem.Length && i < |mem[f]| then mem[f][i] else ZERO_WORD
    }

    method WriteWord(f: nat, i: nat, w: Word)
      requires Valid()
      modifies this, memMap, mem
      ensures Valid() && St() == SetWord(old(St()), f, i, w)
    {
      if f < mem.Length && i < |mem[f]| {
        mem[f] := mem[f][i := w];
        assert mem[..] == old(mem[..])[f := old(mem[f])[i := w]];
      }
    }

    method BumpCount(f: nat, delta: int)
      requires Valid()
      modifies this, memMap, mem
      ensures Valid() && St() == AddCount(old(St()), f, delta)
    {
      if LOW_FRAME <= f < LOW_FRAME + memMap.Length {
        memMap[f - LOW_FRAME] := (memMap[f - LOW_FRAME] + delta) % BYTE;
        assert memMap[..] == old(memMap[..])[f - LOW_FRAME := (old(memMap[f - LOW_FRAME]) + delta) % BYTE];
      }
    }

    /** get_free_page: the highest frame whose count is 0 is taken and cleared; 0 only if there is
        no such frame. */
    method GetFreePage() returns (f: nat)
      requires Valid()
      modifies this, memMap, mem
      ensures Valid() && f == FreeFrame(old(St()))
      ensures St() == if f == 0 then old(St()) else Take(old(St()), f)
      ensures f == 0 <==> forall k :: 0 <= k < memMap.Length ==> old(memMap[k]) != 0
      ensures f != 0 ==>
        && LOW_FRAME <= f < LOW_FRAME + memMap.Length && old(memMap[f - LOW_FRAME]) == 0
        && (forall k :: f - LOW_FRAME < k < memMap.Length ==> old(memMap[k]) != 0)
        && memMap[f - LOW_FRAME] == 1
        && (forall k :: 0 <= k < memMap.Length && k != f - LOW_FRAME ==> memMap[k] == old(memMap[k]))
        && mem[f] == seq(ENTRIES, _ => ZERO_WORD)
    {
      LastFreeIs(memMap[..]);
      var k := memMap.Length;
      while k > 0 && memMap[k - 1] != 0
        invariant 0 <= k <= memMap.Length
        invariant forall j :: k <= j < memMap.Length ==> memMap[j] != 0
      {
        k := k - 1;
      }
      if k == 0 { return 0; }
      f := k - 1 + LOW_FRAME;
      memMap[k - 1] := 1;
      mem[f] := ZeroPage();
      held := held + {f};
      assert memMap[..] == old(memMap[..])[k - 1 := 1];
      assert mem[..] == old(mem[..])[f := ZeroPage()];
    }

    // the scan as it is specified
    lemma LastFreeIs(counts: seq<nat>)
      ensures var k := LastFree(counts, |counts|);
              && (k < 0 <==> forall j :: 0 <= j < |counts| ==> counts[j] != 0)
              && (k >= 0 ==> counts[k] == 0 && forall j :: k < j < |counts| ==> counts[j] != 0)
    {}

    method ReleasePage(f: nat)
      requires Valid()
      modifies this, memMap, mem
      ensures Valid() && St() == FreePage(old(St()), f)
    {
      if f < LOW_FRAME { return; }
      if f >= hi || f - LOW_FRAME >= memMap.Length { panicked := true; return; }
      if memMap[f - LOW_FRAME] == 0 { panicked := true; return; }
      memMap[f - LOW_FRAME] := memMap[f - LOW_FRAME] - 1;
      assert memMap[..] == old(memMap[..])[f - LOW_FRAME := old(memMap[f - LOW_FRAME]) - 1];
    }

    method NewTable(d: nat) returns (ok: bool)
      requires Valid()
      modifies this, memMap, mem
      ensures Valid() && Result(St(), ok) == InstallTable(old(St()), d)
    {
      var t := GetFreePage();
      if t == 0 { return false; }
      WriteWord(0, d, FreshEntry(t));
      held := old(held);
      return true;
    }

    // the inner loop of free_page_tables
    method FreeTableEntries(t: nat)
      requires Valid()
      modifies this, memMap, mem
      ensures Valid() && St() == FreeTable(old(St()), t, 0)
    {
      var i := 0;
      while i < ENTRIES
        invariant Valid() && 0 <= i <= ENTRIES
        invariant FreeTable(St(), t, i) == FreeTable(old(St()), t, 0)
      {
        var w := ReadWord(t, i);
        if w.present { ReleasePage(w.frame); }
        WriteWord(t, i, ZERO_WORD);
        i := i + 1;
      }
    }

    method FreePageTables(from: nat, n: nat)
      requires Valid()
      modifies this, memMap, mem
      ensures Valid() && St() == FreeDirs(old(St()), from, n)
    {
      var d, left := from, n;
      while left > 0
        invariant Valid() && d == from + n - left && 0 <= left <= n
        invariant FreeDirs(St(), d, left) == FreeDirs(old(St()), from, n)
      {
        if ReadWord(0, d).present {
          var t := ReadWord(0, d).frame;
          FreeTableEntries(t);
          ReleasePage(t);
          WriteWord(0, d, ZERO_WORD);
        }
        d, left := d + 1, left - 1;
      }
    }

    // the inner loop of copy_page_tables
    method CopyTableEntries(fromTable: nat, toTable: nat)
      requires Valid()
      modifies this, memMap, mem
      ensures Valid() && St() == CopyTable(old(St()), fromTable, toTable, 0)
    {
      var i := 0;
      while i < ENTRIES
        invariant Valid() && 0 <= i <= ENTRIES
        invariant CopyTable(St(), fromTable, toTable, i) == CopyTable(old(St()), fromTable, toTable, 0)
      {
        var page := ReadWord(fromTable, i);
        if page.present {
          page := page.(writable := false);
          WriteWord(toTable, i, page);
          if page.frame >= LOW_FRAME {
            WriteWord(fromTable, i, page);
            BumpCount(page.frame, 1);
          }
        }
        i := i + 1;
      }
    }

    method CopyPageTables(from: nat, to: nat, n: nat) returns (ok: bool)
      requires Valid()
      modifies this, memMap, mem
      ensures Valid() && Result(St(), ok) == CopyDirs(old(St()), from, to, n)
    {
      var f, t, left := from, to, n;
      while left > 0
        invariant Valid() && 0 <= left <= n
        invariant CopyDirs(St(), f, t, left) == CopyDirs(old(St()), from, to, n)
      {
        if ReadWord(0, t).present { panicked := true; return false; }
        if ReadWord(0, f).present {
          var installed := NewTable(t);
          if !installed { return false; }
          CopyTableEntries(ReadWord(0, f).frame, ReadWord(0, t).frame);
        }
        f, t, left := f + 1, t + 1, left - 1;
      }
      return true;
    }

    /** A fork that fails leaves every reference count as it was. */
    method ForkMemory(from: nat, to: nat, n: nat) returns (ok: bool)
      requires Valid()
      modifies this, memMap, mem
      ensures Valid() && Result(St(), ok) == CopyMem(old(St()), from, to, n)
      ensures old(Inv(St()) && ForkRange(St(), from, to, n)) && !ok ==> memMap[..] == old(memMap[..])
    {
      ok := CopyPageTables(from, to, n);
      if !ok { FreePageTables(to, n); }
      if Inv(old(St())) && ForkRange(old(St()), from, to, n) {
        ForkCopiesOrRestores(old(St()), from, to, n);
      }
    }

    method UnWpPage(t: nat, i: nat) returns (ok: bool)
      requires Valid()
      modifies this, memMap, mem
      ensures Valid() && Result(St(), ok) == Unprotect(old(St()), t, i)
    {
      var e := ReadWord(t, i);
      if LOW_FRAME <= e.frame < LOW_FRAME + memMap.Length && memMap[e.frame - LOW_FRAME] == 1 {
        WriteWord(t, i, e.(writable := true));
        return true;
      }
      var page := GetFreePage();
      if page == 0 { return false; }
      if e.frame >= LOW_FRAME { BumpCount(e.frame, -1); }
      WriteWord(t, i, FreshEntry(page));
      held := old(held);
      ghost var before := St();
      if e.frame < mem.Length && page < mem.Length {
        mem[page] := mem[e.frame];
        assert mem[..] == before.mem[page := before.mem[e.frame]];
      }
      return true;
    }

    method VerifyWrite(d: nat, i: nat) returns (ok: bool)
      requires Valid()
      modifies this, memMap, mem
      ensures Valid() && Result(St(), ok) == WriteVerify(old(St()), d, i)
    {
      if !ReadWord(0, d).present { return true; }
      var t := ReadWord(0, d).frame;
      if ReadWord(t, i).present && !ReadWord(t, i).writable {
        ok := UnWpPage(t, i);
      } else {
        ok := true;
      }
    }

    method SharePage(fd: nat, td: nat, i: nat) returns (r: Sharing)
      requires Valid()
      modifies this, memMap, mem
      ensures Valid() && St() == TryToShare(old(St()), fd, td, i) && r == SharingOutcome(old(St()), fd, td, i)
    {
      if !ReadWord(0, fd).present { return NotShared; }
      var e := ReadWord(ReadWord(0, fd).frame, i);
      if e.dirty || !e.present { return NotShared; }
      if e.frame >= hi || e.frame < LOW_FRAME { return NotShared; }
      if !ReadWord(0, td).present {
        var installed := NewTable(td);
        if !installed { return NoMemory; }
      }
      var ft, tt := ReadWord(0, fd).frame, ReadWord(0, td).frame;
      if ReadWord(tt, i).present { panicked := true; return Panic; }
      e := ReadWord(ft, i).(writable := false);
      WriteWord(ft, i, e);
      WriteWord(tt, i, e);
      BumpCount(e.frame, 1);
      return Shared;
    }

    method MapPage(page: nat, d: nat, i: nat) returns (ok: bool)
      requires Valid()
      modifies this, memMap, mem
      ensures Valid() && Result(St(), ok) == PutPage(old(St()), page, d, i)
    {
      if !ReadWord(0, d).present {
        ok := NewTable(d);
        if !ok { return; }
      }
      WriteWord(ReadWord(0, d).frame, i, FreshEntry(page));
      held := held - {page};
      return true;
    }

    method MapEmptyPage(d: nat, i: nat) returns (ok: bool)
      requires Valid()
      modifies this, memMap, mem
      ensures Valid() && Result(St(), ok) == GetEmptyPage(old(St()), d, i)
    {
      var page := GetFreePage();
      if page == 0 { return false; }
      ok := MapPage(page, d, i);
      if !ok {
        ReleasePage(page);
        held := held - {page};
      }
    }

    // verify_area: every page of size bytes from the linear address start
    method PrepareArea(start: nat, size: nat) returns (ok: bool)
      requires Valid()
      modifies this, memMap, mem
      ensures Valid() && Result(St(), ok) == VerifyArea(old(St()), start, size)
    {
      var left: int := size + start % PAGE;
      var page := start / PAGE;
      while left > 0
        invariant Valid()
        invariant 0 <= page
        invariant VerifyFrom(St(), page, left) == VerifyArea(old(St()), start, size)
      {
        left := left - PAGE;
        ok := VerifyWrite(page / ENTRIES, page % ENTRIES);
        if !ok { return; }
        page := page + 1;
      }
      return true;
    }
  }
}
