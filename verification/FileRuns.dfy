/** Runs of file operations on one device, against one string of bytes per file; and which blocks
    a run loses. */
module FileRuns {
  import opened Basics
  import opened FileStore
  import opened FileOwnership
  import opened FileCreate
  import opened FileContents
  import opened FileTruncate
  import opened FileSystem

  datatype Op =
    | Write(i: nat, pos: nat, buf: seq<Byte>)     // file_write at a position
    | Append(i: nat, buf: seq<Byte>)              // file_write of a file opened with O_APPEND
    | Create(i: nat, block: nat)                  // create_block by itself
    | Cut(i: nat)                                 // truncate
    | Hold(b: nat)                                // another task takes the buffer of a block in use
    | Drop(b: nat)                                // and gives it back, which leaves it held if pinned

  // what the source demands: positions within the largest file, and buffers held of blocks in use
  ghost predicate Legal(s: Store, op: Op) {
    match op
    case Write(i, pos, buf) => i < |s.inodes| && pos + |buf| <= MAX_SIZE
    case Append(i, buf) => i < |s.inodes| && Size(s, i) + |buf| <= MAX_SIZE
    case Create(i, block) => i < |s.inodes| && block < MAX_BLOCKS
    case Cut(i) => i < |s.inodes|
    case Hold(b) => IsZone(s, b) && InUse(s, b)
    case Drop(b) => true
  }

  // what an operation leads to, with the number of bytes it wrote; any other changes nothing
  ghost function Do(s: Store, op: Op): Written {
    if !Legal(s, op) then Written(s, 0) else
    match op
    case Write(i, pos, buf) => WriteFile(s, i, pos, buf)
    case Append(i, buf) => WriteFile(s, i, Size(s, i), buf)
    case Create(i, block) => Written(CreateBlock(s, i, block), 0)
    case Cut(i) => Written(Truncate(s, i), 0)
    case Hold(b) => Written(s.(busy := s.busy + {b}), 0)
    case Drop(b) => Written(s.(busy := s.busy - ({b} - s.pinned)), 0)
  }

  function Files(s: Store): (fs: seq<seq<Byte>>)
    ensures |fs| == |s.inodes|
  {
    seq(|s.inodes|, i requires 0 <= i => Content(s, i))
  }

  function Regular(s: Store): (r: seq<bool>)
    ensures |r| == |s.inodes|
  {
    seq(|s.inodes|, i requires 0 <= i < |s.inodes| => s.inodes[i].regular)
  }

  // the same on plain strings; n is the number of bytes the device had room for
  function FlatDo(fs: seq<seq<Byte>>, regular: seq<bool>, op: Op, n: nat): (r: seq<seq<Byte>>)
    ensures |r| == |fs|
  {
    match op
    case Write(i, pos, buf) => if i < |fs| && n <= |buf| then fs[i := Splice(fs[i], pos, buf[..n])] else fs
    case Append(i, buf) => if i < |fs| && n <= |buf| then fs[i := fs[i] + buf[..n]] else fs
    case Create(i, block) => fs
    case Cut(i) => if i < |fs| && i < |regular| && regular[i] then fs[i := []] else fs
    case Hold(b) => fs
    case Drop(b) => fs
  }

  lemma FilesBecome(s: Store, s': Store, i: nat, c: seq<Byte>)
    requires i < |s.inodes| && Becomes(s, s', i, c)
    ensures Files(s') == Files(s)[i := c]
  {}

  lemma FilesSame(s: Store, s': Store)
    requires |s'.inodes| == |s.inodes| && forall i :: 0 <= i < |s.inodes| ==> Content(s', i) == Content(s, i)
    ensures Files(s') == Files(s)
  {}

  lemma AppendIsSplice(c: seq<Byte>, data: seq<Byte>)
    ensures Splice(c, |c|, data) == c + data
  {}

  // from s to s' the files have become fs, and the blocks of lost are lost and their buffers pinned
  ghost predicate Flat(s: Store, s': Store, fs: seq<seq<Byte>>, lost: set<int>) {
    && Good(s') && Files(s') == fs && Regular(s') == Regular(s)
    && Lost(s') == Lost(s) + lost && Pins(s, s', lost)
  }

  lemma CreateFlat(s: Store, i: nat, block: nat)
    requires Good(s) && i < |s.inodes| && block < MAX_BLOCKS
    ensures Flat(s, CreateBlock(s, i, block), Files(s), {})
  {
    CreateBlockStep(s, i, block);
    CreatesFlat(s, CreateBlock(s, i, block), DataSlot(i, block));
  }

  lemma TailsKept(s: Store, s': Store)
    requires ZeroTails(s) && |s'.inodes| == |s.inodes| && SameBytes(s, s')
    requires forall i :: 0 <= i < |s.inodes| ==> Size(s', i) == Size(s, i)
    ensures ZeroTails(s')
  {
    forall i, a | 0 <= i < |s'.inodes| && Size(s', i) <= a < MAX_SIZE
      ensures ByteAt(s', i, a) == 0
    {
      assert ByteAt(s', i, a) == ByteAt(s, i, a);
      assert Size(s', i) == Size(s, i);
    }
  }

  lemma CreatesFlat(s: Store, s': Store, p: Slot)
    requires Good(s) && Creates(s, s', p)
    ensures Flat(s, s', Files(s), {})
  {
    forall i | 0 <= i < |s.inodes|
      ensures Content(s', i) == Content(s, i)
    {
      assert Size(s', i) == Size(s, i);
    }
    assert forall i :: 0 <= i < |s.inodes| ==> Size(s', i) == Size(s, i);
    TailsKept(s, s');
    FilesSame(s, s');
  }

  lemma CutFlat(s: Store, i: nat)
    requires Good(s) && i < |s.inodes| && s.inodes[i].regular
    ensures Flat(s, Truncate(s, i), Files(s)[i := []], HeldBlocks(s, i))
  {
    TruncateFrees(s, i);
    TruncateLoses(s, i);
    FreesContents(s, Truncate(s, i), i);
    FilesBecome(s, Truncate(s, i), i, []);
  }

  lemma BusyFlat(s: Store, busy: set<nat>)
    requires Good(s) && s.pinned <= busy && forall b :: b in busy && IsZone(s, b) ==> InUse(s, b)
    ensures Flat(s, s.(busy := busy), Files(s), {})
  {
    var s' := s.(busy := busy);
    forall q ensures At(s', q) == At(s, q) && (IsSlot(s', q) <==> IsSlot(s, q)) {}
    SameSlotsLoseNone(s, s');
    BusySame(s, busy);
    TailsKept(s, s');
    forall i | 0 <= i < |s.inodes| ensures Content(s', i) == Content(s, i) {}
    FilesSame(s, s');
  }

  lemma BusySame(s: Store, busy: set<nat>)
    ensures SameBytes(s, s.(busy := busy))
  {
    forall i, a | 0 <= i < |s.inodes| && 0 <= a < MAX_SIZE
      ensures ByteAt(s.(busy := busy), i, a) == ByteAt(s, i, a)
    {
      assert Bmap(s.(busy := busy), i, a / BLOCK_SIZE) == Bmap(s, i, a / BLOCK_SIZE);
    }
  }

  lemma WriteFlat(s: Store, i: nat, pos: nat, buf: seq<Byte>)
    requires Good(s) && i < |s.inodes| && pos + |buf| <= MAX_SIZE
    ensures var r := WriteFile(s, i, pos, buf);
            && Flat(s, r.s, Files(s)[i := Splice(Content(s, i), pos, buf[..r.count])], {})
            && (r.count < |buf| ==> Full(r.s))
  {
    WriteIsSplice(s, i, pos, buf);
    WriteFileStores(s, i, pos, buf);
    var r := WriteFile(s, i, pos, buf);
    FilesBecome(s, r.s, i, Splice(Content(s, i), pos, buf[..r.count]));
  }

  // the blocks an operation loses
  ghost function Loses(s: Store, op: Op): set<int> {
    if op.Cut? && op.i < |s.inodes| && s.inodes[op.i].regular then HeldBlocks(s, op.i) else {}
  }

  /** Every operation keeps the invariant and does to the files what it does to plain strings;
      only a truncation loses blocks, those of its inode that somebody else holds, and only a
      full device cuts a write short. */
  lemma StepFlat(s: Store, op: Op)
    requires Good(s)
    ensures var r := Do(s, op);
            && Flat(s, r.s, FlatDo(Files(s), Regular(s), op, r.count), Loses(s, op))
            && (Legal(s, op) && (op.Write? || op.Append?) && r.count < |op.buf| ==> Full(r.s))
  {
    if Legal(s, op) {
      match op
      case Write(i, pos, buf) => WriteFlat(s, i, pos, buf);
      case Append(i, buf) =>
        WriteFlat(s, i, Size(s, i), buf);
        AppendIsSplice(Content(s, i), buf[..WriteFile(s, i, Size(s, i), buf).count]);
      case Create(i, block) => CreateFlat(s, i, block);
      case Cut(i) => if s.inodes[i].regular { CutFlat(s, i); }
      case Hold(b) => BusyFlat(s, s.busy + {b});
      case Drop(b) => BusyFlat(s, s.busy - ({b} - s.pinned));
    } else {
      IllegalFlat(s, op);
    }
  }

  // an operation that is not possible changes no string either
  lemma IllegalFlat(s: Store, op: Op)
    requires !Legal(s, op)
    ensures FlatDo(Files(s), Regular(s), op, 0) == Files(s) && Loses(s, op) == {}
  {
    if op.Append? && op.i < |s.inodes| { assert Files(s)[op.i] + op.buf[..0] == Files(s)[op.i]; }
  }

  ghost function Run(s: Store, ops: seq<Op>): Store
    decreases |ops|
  {
    if ops == [] then s else Run(Do(s, ops[0]).s, ops[1..])
  }

  // how many bytes each operation wrote
  ghost function Counts(s: Store, ops: seq<Op>): (counts: seq<nat>)
    ensures |counts| == |ops|
    decreases |ops|
  {
    if ops == [] then [] else [Do(s, ops[0]).count] + Counts(Do(s, ops[0]).s, ops[1..])
  }

  // the same run on plain strings
  function FlatRun(fs: seq<seq<Byte>>, regular: seq<bool>, ops: seq<Op>, counts: seq<nat>): seq<seq<Byte>>
    requires |counts| == |ops|
    decreases |ops|
  {
    if ops == [] then fs
    else FlatRun(FlatDo(fs, regular, ops[0], counts[0]), regular, ops[1..], counts[1..])
  }

  // the blocks that somebody else held when their inode was truncated
  ghost function HeldWhenCut(s: Store, ops: seq<Op>): set<int>
    decreases |ops|
  {
    if ops == [] then {} else Loses(s, ops[0]) + HeldWhenCut(Do(s, ops[0]).s, ops[1..])
  }

  /** Over any run blocks stay in use by at most one slot, no panic is reached, the files are what
      the same run makes of plain strings, and the blocks lost for ever are exactly those that
      somebody held when their inode was truncated; their buffers stay held for ever. */
  lemma {:induction false} RunFlat(s: Store, ops: seq<Op>)
    requires Good(s)
    ensures var t := Run(s, ops);
            && Good(t) && Files(t) == FlatRun(Files(s), Regular(s), ops, Counts(s, ops))
            && Regular(t) == Regular(s) && Lost(t) == Lost(s) + HeldWhenCut(s, ops)
            && Pins(s, t, HeldWhenCut(s, ops)) && t.pinned <= t.busy
    decreases |ops|
  {
    if ops != [] {
      StepFlat(s, ops[0]);
      RunFlat(Do(s, ops[0]).s, ops[1..]);
    }
  }

  /** The device itself, through its methods, runs the same way. */
  method Perform(d: Device, op: Op)
    requires d.Valid() && Good(d.St())
    modifies d, d.zmap, d.disk, d.inodes
    ensures d.Valid() && Good(d.St()) && d.St() == Do(old(d.St()), op).s
  {
    StepFlat(d.St(), op);
    match op
    case Write(i, pos, buf) =>
      if i < d.inodes.Length && pos + |buf| <= MAX_SIZE { var ret, end := d.FileWrite(i, pos, false, buf); }
    case Append(i, buf) =>
      if i < d.inodes.Length && d.inodes[i].size + |buf| <= MAX_SIZE { var ret, end := d.FileWrite(i, 0, true, buf); }
    case Create(i, block) =>
      if i < d.inodes.Length && block < MAX_BLOCKS { var b := d.MapBlock(i, block, true); }
    case Cut(i) =>
      if i < d.inodes.Length { d.TruncateFile(i); }
    case Hold(b) =>
      if d.first <= b < d.zones && d.zmap[b - d.first + 1] { d.busy := d.busy + {b}; }
    case Drop(b) => d.busy := d.busy - ({b} - d.pinned);
  }

  method PerformAll(d: Device, ops: seq<Op>)
    requires d.Valid() && Good(d.St())
    modifies d, d.zmap, d.disk, d.inodes
    ensures d.Valid() && Good(d.St()) && d.St() == Run(old(d.St()), ops)
    ensures Files(d.St()) == FlatRun(Files(old(d.St())), Regular(old(d.St())), ops, Counts(old(d.St()), ops))
    ensures Lost(d.St()) == Lost(old(d.St())) + HeldWhenCut(old(d.St()), ops)
    ensures Pins(old(d.St()), d.St(), HeldWhenCut(old(d.St()), ops))
  {
    RunFlat(d.St(), ops);
    var n := 0;
    while n < |ops|
      invariant 0 <= n <= |ops| && d.Valid() && Good(d.St())
      invariant Run(d.St(), ops[n..]) == Run(old(d.St()), ops)
    {
      assert ops[n..][1..] == ops[n + 1..];
      Perform(d, ops[n]);
      n := n + 1;
    }
  }

  // a freshly made device: no file has a block
  ghost predicate Fresh(s: Store) {
    && Shape(s) && !s.panicked && s.busy == {} && s.pinned == {} && |s.zmap| > 0 && s.zmap[0]
    && (forall i, k :: 0 <= i < |s.inodes| && 0 <= k < 9 ==> s.inodes[i].zone[k] == 0)
    && (forall i :: 0 <= i < |s.inodes| ==> s.inodes[i].size == 0)
    && (forall b :: IsZone(s, b) ==> !InUse(s, b))
  }

  lemma FreshGood(s: Store)
    requires Fresh(s)
    ensures Good(s) && Lost(s) == {}
    ensures forall q :: IsSlot(s, q) ==> At(s, q) == 0
  {
    forall q | IsSlot(s, q) ensures At(s, q) == 0 {
      assert forall k :: 0 <= k < 9 ==> Zone(s, q.i, k) == 0;
    }
    forall i, a | 0 <= i < |s.inodes| && 0 <= a < MAX_SIZE
      ensures ByteAt(s, i, a) == 0
    {
      BmapIsSlot(s, i, a / BLOCK_SIZE);
    }
  }

  lemma HeldOn(s: Store, op: Op, rest: seq<Op>)
    ensures HeldWhenCut(s, [op] + rest) == Loses(s, op) + HeldWhenCut(Do(s, op).s, rest)
  {
    assert ([op] + rest)[1..] == rest;
  }

  lemma HeldOnThree(s: Store, b: nat, rest: seq<Op>)
    ensures var s2 := Do(Do(s, Create(0, 0)).s, Hold(b)).s;
            HeldWhenCut(s, [Create(0, 0)] + ([Hold(b)] + ([Cut(0)] + rest))) ==
            Loses(s2, Cut(0)) + HeldWhenCut(Do(s2, Cut(0)).s, rest)
  {
    var s1 := Do(s, Create(0, 0)).s;
    HeldOn(s, Create(0, 0), [Hold(b)] + ([Cut(0)] + rest));
    HeldOn(s1, Hold(b), [Cut(0)] + rest);
    HeldOn(Do(s1, Hold(b)).s, Cut(0), rest);
  }

  // block b is held while file 0 is truncated
  lemma HeldInRun(s: Store, s1: Store, b: nat)
    requires s1 == CreateBlock(s, 0, 0) && |s.inodes| > 0 && |s1.inodes| > 0 && s1.inodes[0].regular
    requires b == At(s1, Direct(0, 0)) && IsZone(s1, b) && InUse(s1, b) && s1.busy == {}
    ensures Loses(Do(Do(s, Create(0, 0)).s, Hold(b)).s, Cut(0)) == {b as int}
  {
    var s2 := s1.(busy := {b});
    assert Do(s1, Hold(b)).s == s2;
    assert NamedBy(s2, 0, b) by { assert IsSlot(s2, Direct(0, 0)); }
    assert HeldBlocks(s2, 0) == {b as int};
  }

  /** Blocks do get lost: on a new device, a file's first block that is held while the file is
      truncated; and its buffer stays held when its holder gives it back. */
  lemma BlockGetsLost(s: Store) returns (b: nat)
    requires Fresh(s) && s.first < s.zones && |s.inodes| > 0 && s.inodes[0].regular
    ensures IsZone(s, b) && Lost(Run(s, [Create(0, 0), Hold(b), Cut(0)])) == {b as int}
    ensures !BitsExact(Run(s, [Create(0, 0), Hold(b), Cut(0)]))
    ensures b in Run(s, [Create(0, 0), Hold(b), Cut(0), Drop(b)]).busy
  {
    FreshGood(s);
    b := FirstBlock(s, CreateBlock(s, 0, 0));
    HeldInRun(s, CreateBlock(s, 0, 0), b);
    LostInRun(s, b);
    HeldForEver(s, b);
  }

  lemma LostInRun(s: Store, b: nat)
    requires Good(s) && Lost(s) == {} && Loses(Do(Do(s, Create(0, 0)).s, Hold(b)).s, Cut(0)) == {b as int}
    ensures Lost(Run(s, [Create(0, 0), Hold(b), Cut(0)])) == {b as int}
    ensures !BitsExact(Run(s, [Create(0, 0), Hold(b), Cut(0)]))
  {
    var ops := [Create(0, 0), Hold(b), Cut(0)];
    assert [Create(0, 0)] + ([Hold(b)] + ([Cut(0)] + [])) == ops;
    HeldOnThree(s, b, []);
    RunFlat(s, ops);
    ExactIffNoneLost(Run(s, ops));
  }

  lemma HeldForEver(s: Store, b: nat)
    requires Good(s) && Loses(Do(Do(s, Create(0, 0)).s, Hold(b)).s, Cut(0)) == {b as int}
    ensures b in Run(s, [Create(0, 0), Hold(b), Cut(0), Drop(b)]).busy
  {
    var ops := [Create(0, 0), Hold(b), Cut(0), Drop(b)];
    assert [Create(0, 0)] + ([Hold(b)] + ([Cut(0)] + [Drop(b)])) == ops;
    HeldOnThree(s, b, [Drop(b)]);
    RunFlat(s, ops);
  }

  // a new device has a block to give
  lemma FirstBlock(s: Store, s1: Store) returns (b: nat)
    requires Fresh(s) && s.first < s.zones && |s.inodes| > 0 && s1 == CreateBlock(s, 0, 0)
    ensures b == At(s1, Direct(0, 0)) && IsZone(s, b) && InUse(s1, b)
    ensures s1.busy == {} && s1.first == s.first && s1.zones == s.zones && |s1.inodes| == |s.inodes| && Lost(s) == {}
    ensures s1.inodes[0].regular == s.inodes[0].regular
  {
    FreshGood(s);
    var p := Direct(0, 0);
    FillZoneStep(s, 0, 0);
    b := At(s1, p);
    forall q | IsSlot(s1, q) && q != p ensures At(s1, q) == 0 { assert IsSlot(s, q); }
    assert IsSlot(s1, p);
    assert s.first !in Lost(s1);
    assert Owned(s1, s.first) ==> At(s1, p) == s.first;
  }
}
