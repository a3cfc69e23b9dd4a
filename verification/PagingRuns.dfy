/** Runs of the memory manager: the lazy page tables behave as if every fork copied at once. */
module PagingRuns {
  import opened Paging
  import opened PagingInvariant
  import opened PagingSteps
  import opened PagingRefinement

  /** What kernel and tasks do to user pages. Space numbers and sizes are in directory entries. */
  datatype Op =
    | Fork(parent: nat, child: nat, n: nat)          // copy_mem
    | Discard(from: nat, n: nat)                     // free_page_tables, on exec and exit
    | Write(d: nat, i: nat, w: nat, x: Word)         // a store by the task that owns d
    | Check(d: nat, i: nat)                          // write_verify
    | Demand(d: nat, i: nat)                         // get_empty_page, on a missing page
    | Share(from: nat, to: nat, i: nat)              // try_to_share, on a missing page
    | Grab                                           // get_free_page for the kernel
    | Enter(page: nat, d: nat, i: nat)               // put_page of a page the kernel filled
    | Release(page: nat)                             // free_page of a page the kernel holds

  // what callers guarantee
  ghost predicate Legal(m: Memory, op: Op) {
    match op
    case Fork(parent, child, n) => ForkRange(m, parent, child, n)
    case Discard(from, n) => SPACE_DIRS <= from && from + n <= ENTRIES
    case Write(d, i, w, x) => Slot(d, i) && w < ENTRIES
    case Check(d, i) => Slot(d, i)
    case Demand(d, i) => Slot(d, i) && !EntryAt(m, d, i).present
    case Share(from, to, i) =>
      Slot(from, i) && Slot(to, i) && from != to && from % SPACE_DIRS == to % SPACE_DIRS && !EntryAt(m, to, i).present
    case Grab => true
    case Enter(page, d, i) => page in m.held && Slot(d, i) && !EntryAt(m, d, i).present
    case Release(page) => page in m.held
  }

  ghost function Do(m: Memory, op: Op): Result {
    match op
    case Fork(parent, child, n) => CopyMem(m, parent, child, n)
    case Discard(from, n) => Result(FreeDirs(m, from, n), true)
    case Write(d, i, w, x) => Store(m, d, i, w, x)
    case Check(d, i) => WriteVerify(m, d, i)
    case Demand(d, i) => GetEmptyPage(m, d, i)
    case Share(from, to, i) => Result(TryToShare(m, from, to, i), SharingOutcome(m, from, to, i) == Shared)
    case Grab => if FreeFrame(m) == 0 then Result(m, false) else Result(Take(m, FreeFrame(m)), true)
    case Enter(page, d, i) => PutPage(m, page, d, i)
    case Release(page) => Result(FreeHeld(m, page), true)
  }

  type View = map<(int, int), Page>

  ghost function ViewOf(m: Memory): View {
    map d, i | SPACE_DIRS <= d < ENTRIES && 0 <= i < ENTRIES && PageAt(m, d, i) != Absent :: (d, i) := PageAt(m, d, i)
  }

  ghost function At(v: View, d: int, i: int): Page { if (d, i) in v then v[(d, i)] else Absent }

  // what fork puts at (d, i): the parent's page on the child's side, the old page elsewhere
  ghost function ForkPage(v: View, parent: int, child: int, n: nat, d: int, i: int): Page {
    At(v, if Within(d, child, n) then d - child + parent else d, i)
  }

  ghost function EagerFork(v: View, parent: int, child: int, n: nat): View {
    map d, i | SPACE_DIRS <= d < ENTRIES && 0 <= i < ENTRIES && ForkPage(v, parent, child, n, d, i) != Absent
      :: (d, i) := ForkPage(v, parent, child, n, d, i)
  }

  ghost function EagerDiscard(v: View, from: int, n: nat): View {
    map k | k in v && !Within(k.0, from, n) :: v[k]
  }

  lemma EagerForkAt(v: View, parent: int, child: int, n: nat, d: int, i: int)
    requires Slot(d, i) && 0 <= i
    ensures At(EagerFork(v, parent, child, n), d, i) == ForkPage(v, parent, child, n, d, i)
  {
    assert (d, i) in EagerFork(v, parent, child, n) <==> ForkPage(v, parent, child, n, d, i) != Absent;
  }

  /** The same operation where every task owns its pages: nothing is shared, fork copies.
      Of the memory, only low (kernel) pages and pages filled by the kernel are looked at. */
  ghost function EagerDo(v: View, op: Op, ok: bool, m: Memory): View {
    match op
    case Fork(parent, child, n) =>
      if !ok then v
      else EagerFork(v, parent, child, n)
    case Discard(from, n) => EagerDiscard(v, from, n)
    case Write(d, i, w, x) =>
      if ok && w < |Contents(m, At(v, d, i))| then v[(d as int, i as int) := Data(Contents(m, At(v, d, i))[w := x])]
      else v
    case Check(d, i) =>
      if ok && (d as int, i as int) in v then v[(d as int, i as int) := Data(Contents(m, At(v, d, i)))] else v
    case Demand(d, i) => if ok then v[(d as int, i as int) := Data(ZeroPage())] else v
    case Share(from, to, i) =>
      if ok && (from as int, i as int) in v then v[(to as int, i as int) := At(v, from, i)]
      else v
    case Grab => v
    case Enter(page, d, i) =>
      if ok then v[(d as int, i as int) := Data(if page < |m.mem| then m.mem[page] else [])]
      else v
    case Release(_) => v
  }

  lemma ViewAt(m: Memory, d: int, i: int)
    ensures At(ViewOf(m), d, i) == if Slot(d, i) && 0 <= i then PageAt(m, d, i) else Absent
  {}

  // a view that agrees with the pages of m is its view
  lemma ViewBy(m: Memory, v: View)
    requires forall k :: k in v ==> Slot(k.0, k.1) && 0 <= k.1
    requires forall d, i :: Slot(d, i) && 0 <= i ==> At(v, d, i) == PageAt(m, d, i)
    requires forall k :: k in v ==> v[k] != Absent
    ensures v == ViewOf(m)
  {
    forall k | k in v
      ensures k in ViewOf(m) && ViewOf(m)[k] == v[k]
    {
      assert At(v, k.0, k.1) == PageAt(m, k.0, k.1);
    }
    forall k | k in ViewOf(m)
      ensures k in v
    {
      assert At(v, k.0, k.1) == PageAt(m, k.0, k.1);
    }
  }

  lemma DoKeepsInv(m: Memory, op: Op)
    requires Inv(m) && Legal(m, op)
    ensures Inv(Do(m, op).m)
  {
    match op
    case Fork(parent, child, n) => ForkCopiesOrRestores(m, parent, child, n);
    case Discard(from, n) => FreeDirsPages(m, from, n);
    case Write(d, i, w, x) => StorePages(m, d, i, w, x);
    case Check(d, i) => VerifyPages(m, d, i);
    case Demand(d, i) => GetEmptyPageStep(m, d, i);
    case Share(from, to, i) => SharePages(m, from, to, i);
    case Grab => if FreeFrame(m) != 0 { TakeStep(m); }
    case Enter(page, d, i) => PutPageStep(m, page, d, i);
    case Release(page) => FreeHeldStep(m, page);
  }

  // one page changes, at (d, i), to p
  lemma OnePage(m: Memory, m': Memory, d: int, i: int, p: Page)
    requires Slot(d, i) && 0 <= i && OnlyPage(m, m', d, i) && PageAt(m', d, i) == p && p != Absent
    ensures ViewOf(m') == ViewOf(m)[(d, i) := p]
  {
    ViewBy(m', ViewOf(m)[(d, i) := p]);
  }

  lemma NoPage(m: Memory, m': Memory)
    requires SamePages(m, m')
    ensures ViewOf(m') == ViewOf(m)
  {
    ViewBy(m', ViewOf(m));
  }

  lemma CopiedView(m: Memory, m': Memory, parent: nat, child: nat, n: nat)
    requires SPACE_DIRS <= parent && parent + n <= ENTRIES
    requires forall d, j :: Slot(d, j) && 0 <= j && !Within(d, child, n) ==> PageAt(m', d, j) == PageAt(m, d, j)
    requires forall d, j :: Slot(d, j) && 0 <= j && Within(d, child, n) && Slot(d - child + parent, j) ==>
               PageAt(m', d, j) == PageAt(m, d - child + parent, j)
    ensures ViewOf(m') == EagerFork(ViewOf(m), parent, child, n)
  {
    var v := EagerFork(ViewOf(m), parent, child, n);
    forall d, i | Slot(d, i) && 0 <= i
      ensures At(v, d, i) == PageAt(m', d, i)
    {
      ForkedPage(m, m', parent, child, n, d, i);
      EagerForkAt(ViewOf(m), parent, child, n, d, i);
    }
    ViewBy(m', v);
  }

  lemma ForkedPage(m: Memory, m': Memory, parent: nat, child: nat, n: nat, d: int, i: int)
    requires SPACE_DIRS <= parent && parent + n <= ENTRIES && Slot(d, i) && 0 <= i
    requires !Within(d, child, n) ==> PageAt(m', d, i) == PageAt(m, d, i)
    requires Within(d, child, n) && Slot(d - child + parent, i) ==> PageAt(m', d, i) == PageAt(m, d - child + parent, i)
    ensures ForkPage(ViewOf(m), parent, child, n, d, i) == PageAt(m', d, i)
  {
    ViewAt(m, if Within(d, child, n) then d - child + parent else d, i);
  }

  lemma ForkView(m: Memory, parent: nat, child: nat, n: nat)
    requires Inv(m) && ForkRange(m, parent, child, n)
    ensures ViewOf(CopyMem(m, parent, child, n).m) ==
            EagerDo(ViewOf(m), Fork(parent, child, n), CopyMem(m, parent, child, n).ok, m)
  {
    var r := CopyMem(m, parent, child, n);
    ForkCopiesOrRestores(m, parent, child, n);
    if r.ok { CopiedView(m, r.m, parent, child, n); } else { NoPage(m, r.m); }
  }

  lemma DiscardView(m: Memory, from: nat, n: nat)
    requires Inv(m) && SPACE_DIRS <= from && from + n <= ENTRIES
    ensures ViewOf(FreeDirs(m, from, n)) == EagerDo(ViewOf(m), Discard(from, n), true, m)
  {
    FreeDirsPages(m, from, n);
    var m' := FreeDirs(m, from, n);
    var v := EagerDo(ViewOf(m), Discard(from, n), true, m);
    forall d, i | Slot(d, i) && 0 <= i
      ensures At(v, d, i) == PageAt(m', d, i)
    {
      ViewAt(m, d, i);
    }
    ViewBy(m', v);
  }

  lemma StoreChangesView(m: Memory, d: nat, i: nat, w: nat, x: Word)
    requires Inv(m) && Slot(d, i) && w < ENTRIES && Store(m, d, i, w, x).ok
    ensures w < |Contents(m, PageAt(m, d, i))|
    ensures ViewOf(Store(m, d, i, w, x).m) ==
            ViewOf(m)[(d as int, i as int) := Data(Contents(m, PageAt(m, d, i))[w := x])]
  {
    StorePages(m, d, i, w, x);
    OnePage(m, Store(m, d, i, w, x).m, d, i, Data(Contents(m, PageAt(m, d, i))[w := x]));
  }

  lemma CheckChangesView(m: Memory, d: nat, i: nat)
    requires Inv(m) && Slot(d, i) && WriteVerify(m, d, i).ok && EntryAt(m, d, i).present
    ensures ViewOf(WriteVerify(m, d, i).m) == ViewOf(m)[(d as int, i as int) := Data(Contents(m, PageAt(m, d, i)))]
  {
    VerifyPages(m, d, i);
    OnePage(m, WriteVerify(m, d, i).m, d, i, Data(Contents(m, PageAt(m, d, i))));
  }

  lemma WriteView(m: Memory, d: nat, i: nat, w: nat, x: Word)
    requires Inv(m) && Slot(d, i) && w < ENTRIES
    ensures ViewOf(Store(m, d, i, w, x).m) == EagerDo(ViewOf(m), Write(d, i, w, x), Store(m, d, i, w, x).ok, m)
  {
    ViewAt(m, d, i);
    if Store(m, d, i, w, x).ok { StoreChangesView(m, d, i, w, x); } else { StorePages(m, d, i, w, x); }
  }

  lemma CheckKeepsView(m: Memory, d: nat, i: nat)
    requires Inv(m) && Slot(d, i) && !(WriteVerify(m, d, i).ok && EntryAt(m, d, i).present)
    ensures WriteVerify(m, d, i).m == m
  {
    VerifyPages(m, d, i);
  }

  lemma CheckView(m: Memory, d: nat, i: nat)
    requires Inv(m) && Slot(d, i)
    ensures ViewOf(WriteVerify(m, d, i).m) == EagerDo(ViewOf(m), Check(d, i), WriteVerify(m, d, i).ok, m)
  {
    ViewAt(m, d, i);
    assert ((d as int, i as int) in ViewOf(m)) == EntryAt(m, d, i).present;
    if WriteVerify(m, d, i).ok && EntryAt(m, d, i).present {
      CheckChangesView(m, d, i);
    } else {
      CheckKeepsView(m, d, i);
    }
  }

  lemma ShareView(m: Memory, from: nat, to: nat, i: nat)
    requires Inv(m) && Legal(m, Share(from, to, i))
    ensures var r := Do(m, Share(from, to, i)); ViewOf(r.m) == EagerDo(ViewOf(m), Share(from, to, i), r.ok, m)
  {
    SharePages(m, from, to, i);
    ViewAt(m, from, i);
    if SharingOutcome(m, from, to, i) == Shared {
      assert PageAt(m, from, i) != Absent;
      OnePage(m, TryToShare(m, from, to, i), to, i, PageAt(m, from, i));
    }
  }

  lemma EnterView(m: Memory, page: nat, d: nat, i: nat)
    requires Inv(m) && Legal(m, Enter(page, d, i))
    ensures ViewOf(PutPage(m, page, d, i).m) == EagerDo(ViewOf(m), Enter(page, d, i), PutPage(m, page, d, i).ok, m)
  {
    PutPageStep(m, page, d, i);
    if PutPage(m, page, d, i).ok { OnePage(m, PutPage(m, page, d, i).m, d, i, Data(m.mem[page])); }
  }

  lemma DoRefinesEager(m: Memory, op: Op)
    requires Inv(m) && Legal(m, op)
    ensures ViewOf(Do(m, op).m) == EagerDo(ViewOf(m), op, Do(m, op).ok, m)
  {
    match op
    case Fork(parent, child, n) => ForkView(m, parent, child, n);
    case Discard(from, n) => DiscardView(m, from, n);
    case Write(d, i, w, x) => WriteView(m, d, i, w, x);
    case Check(d, i) => CheckView(m, d, i);
    case Demand(d, i) =>
      GetEmptyPageStep(m, d, i);
      if GetEmptyPage(m, d, i).ok {
        OnePage(m, GetEmptyPage(m, d, i).m, d, i, Data(ZeroPage()));
      } else {
        NoPage(m, GetEmptyPage(m, d, i).m);
      }
    case Share(from, to, i) => ShareView(m, from, to, i);
    case Grab => if FreeFrame(m) != 0 { TakeStep(m); NoPage(m, Take(m, FreeFrame(m))); }
    case Enter(page, d, i) => EnterView(m, page, d, i);
    case Release(page) => FreeHeldStep(m, page); NoPage(m, FreeHeld(m, page));
  }

  // ----- runs -----------------------------------------------------------------------

  ghost function Run(m: Memory, ops: seq<Op>): Memory
    decreases |ops|
  {
    if ops == [] then m else Run(Do(m, ops[0]).m, ops[1..])
  }

  ghost predicate LegalRun(m: Memory, ops: seq<Op>)
    decreases |ops|
  {
    ops == [] || (Legal(m, ops[0]) && LegalRun(Do(m, ops[0]).m, ops[1..]))
  }

  ghost function EagerRun(v: View, m: Memory, ops: seq<Op>): View
    decreases |ops|
  {
    if ops == [] then v else EagerRun(EagerDo(v, ops[0], Do(m, ops[0]).ok, m), Do(m, ops[0]).m, ops[1..])
  }

  /** Every run keeps the counting invariant, never reaches a panic, and shows the tasks the
      pages that eager copying would. */
  lemma {:induction false} RunRefinesEager(m: Memory, ops: seq<Op>)
    requires Inv(m) && LegalRun(m, ops)
    ensures Inv(Run(m, ops))
    ensures ViewOf(Run(m, ops)) == EagerRun(ViewOf(m), m, ops)
    decreases |ops|
  {
    if ops != [] {
      DoKeepsInv(m, ops[0]);
      DoRefinesEager(m, ops[0]);
      RunRefinesEager(Do(m, ops[0]).m, ops[1..]);
    }
  }

  // op is addressed to page (d, i)
  predicate Addresses(op: Op, d: int, i: int) {
    match op
    case Fork(parent, child, n) => Within(d, child, n)
    case Discard(from, n) => Within(d, from, n)
    case Write(d2, j, w, x) => d2 == d && j == i
    case Check(d2, j) => d2 == d && j == i
    case Demand(d2, j) => d2 == d && j == i
    case Share(from, to, j) => to == d && j == i
    case Grab => false
    case Enter(page, d2, j) => d2 == d && j == i
    case Release(page) => false
  }

  lemma EagerIsolates(v: View, op: Op, ok: bool, m: Memory, d: int, i: int)
    requires Slot(d, i) && 0 <= i && !Addresses(op, d, i)
    ensures At(EagerDo(v, op, ok, m), d, i) == At(v, d, i)
  {
    match op
    case Fork(parent, child, n) => EagerForkAt(v, parent, child, n, d, i);
    case Discard(from, n) => assert (d, i) in EagerDiscard(v, from, n) <==> (d, i) in v;
    case _ =>
  }

  /** No run changes a page it does not address: a store in one space never changes what
      another space reads, however the two came to share frames. */
  lemma {:induction false} RunIsolates(m: Memory, ops: seq<Op>, d: int, i: int)
    requires Inv(m) && LegalRun(m, ops) && Slot(d, i) && 0 <= i
    requires forall op :: op in ops ==> !Addresses(op, d, i)
    ensures PageAt(Run(m, ops), d, i) == PageAt(m, d, i)
    decreases |ops|
  {
    if ops != [] {
      var m1 := Do(m, ops[0]).m;
      DoKeepsInv(m, ops[0]);
      DoRefinesEager(m, ops[0]);
      assert ops[0] in ops;
      EagerIsolates(ViewOf(m), ops[0], Do(m, ops[0]).ok, m, d, i);
      ViewAt(m, d, i);
      ViewAt(m1, d, i);
      RunIsolates(m1, ops[1..], d, i);
    }
  }

  ghost predicate Unaddressed(ops: seq<Op>, d: int, i: int) { forall op :: op in ops ==> !Addresses(op, d, i) }

  // a page one side shows after fork, and after a run that does not address it
  lemma ForkedPageStays(m: Memory, parent: nat, child: nat, n: nat, ops: seq<Op>, d: int, i: int, d2: int)
    requires Inv(m) && ForkRange(m, parent, child, n) && CopyMem(m, parent, child, n).ok
    requires LegalRun(CopyMem(m, parent, child, n).m, ops)
    requires Within(d, parent, n) && 0 <= i < ENTRIES && (d2 == d || d2 == d - parent + child)
    requires Unaddressed(ops, d2, i)
    ensures PageAt(Run(CopyMem(m, parent, child, n).m, ops), d2, i) == PageAt(m, d, i)
  {
    ForkCopiesOrRestores(m, parent, child, n);
    assert Slot(d, i) && Slot(d2, i);
    RunIsolates(CopyMem(m, parent, child, n).m, ops, d2, i);
  }

  /** Fork, then anything: a page of either side that the run does not address still reads
      as it did in the parent when fork returned. */
  lemma ForkIsolates(m: Memory, parent: nat, child: nat, n: nat, ops: seq<Op>, d: int, i: int)
    requires Inv(m) && ForkRange(m, parent, child, n) && CopyMem(m, parent, child, n).ok
    requires LegalRun(CopyMem(m, parent, child, n).m, ops)
    requires Within(d, parent, n) && 0 <= i < ENTRIES
    ensures var m' := Run(CopyMem(m, parent, child, n).m, ops);
            && (Unaddressed(ops, d, i) ==> PageAt(m', d, i) == PageAt(m, d, i))
            && (Unaddressed(ops, d - parent + child, i) ==> PageAt(m', d - parent + child, i) == PageAt(m, d, i))
  {
    if Unaddressed(ops, d, i) { ForkedPageStays(m, parent, child, n, ops, d, i, d); }
    if Unaddressed(ops, d - parent + child, i) { ForkedPageStays(m, parent, child, n, ops, d, i, d - parent + child); }
  }

  /** From boot on: every count is the number of references, and no reference count comes
      near the range of a byte. */
  lemma ReachableCounts(m: Memory, ops: seq<Op>, f: int)
    requires Booted(m) && LegalRun(m, ops) && Pageable(m, f)
    ensures var m' := Run(m, ops);
            && LOW_FRAME <= f < LOW_FRAME + |m'.counts|
            && m'.counts[f - LOW_FRAME] == |Refs(m', f)| + Holds(m', f) <= ENTRIES / SPACE_DIRS
            && !m'.panicked
  {
    BootInv(m);
    RunRefinesEager(m, ops);
    RunRange(m, ops);
    var m' := Run(m, ops);
    if f in m'.held { HeldCount(m', f); } else { RefsBound(m', f); }
  }

  lemma {:induction false} RunRange(m: Memory, ops: seq<Op>)
    requires Inv(m) && LegalRun(m, ops)
    ensures Run(m, ops).lo == m.lo && Run(m, ops).hi == m.hi
    decreases |ops|
  {
    if ops != [] {
      DoKeepsInv(m, ops[0]);
      DoRange(m, ops[0]);
      RunRange(Do(m, ops[0]).m, ops[1..]);
    }
  }

  lemma DoRange(m: Memory, op: Op)
    requires Inv(m) && Legal(m, op)
    ensures Do(m, op).m.lo == m.lo && Do(m, op).m.hi == m.hi
  {
    match op
    case Fork(parent, child, n) => ForkCopiesOrRestores(m, parent, child, n);
    case Discard(from, n) => FreeDirsPages(m, from, n);
    case Write(d, i, w, x) => StorePages(m, d, i, w, x);
    case Check(d, i) => VerifyPages(m, d, i);
    case Demand(d, i) => GetEmptyPageStep(m, d, i);
    case Share(from, to, i) => SharePages(m, from, to, i);
    case Grab => if FreeFrame(m) != 0 { TakeStep(m); }
    case Enter(page, d, i) => PutPageStep(m, page, d, i);
    case Release(page) => FreeHeldStep(m, page);
  }
}
