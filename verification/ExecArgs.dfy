/** The argument block of execve in fs/exec.c: copy_strings fills up to 32 pages from the top
    down, create_tables builds the pointer tables below the strings. */
module ExecArgs {
  import opened Basics

  const PAGE_SIZE := 4096
  const MAX_ARG_PAGES := 32
  const TOP := 131068           // PAGE_SIZE * MAX_ARG_PAGES - 4
  const LIMIT := 0x4000000      // size of the data segment
  const BASE := 0x3FE0000       // LIMIT - MAX_ARG_PAGES * PAGE_SIZE

  type Str = seq<Byte>

  // ----- strings one after the other ------------------------------------------------

  function Zeroed(s: Str): Str { s + [0] }

  function Flat(strs: seq<Str>): Str
    decreases |strs|
  {
    if strs == [] then [] else Zeroed(strs[0]) + Flat(strs[1..])
  }

  ghost predicate NoZero(s: Str) { forall i :: 0 <= i < |s| ==> s[i] != 0 }

  ghost predicate AllStrings(strs: seq<Str>) { forall i :: 0 <= i < |strs| ==> NoZero(strs[i]) }

  lemma {:induction false} FlatAppend(a: seq<Str>, b: seq<Str>)
    ensures Flat(a + b) == Flat(a) + Flat(b)
    decreases |a|
  {
    if a == [] {
      assert a + b == b;
    } else {
      assert (a + b)[1..] == a[1..] + b;
      FlatAppend(a[1..], b);
      assert Flat(a + b) == Zeroed(a[0]) + (Flat(a[1..]) + Flat(b));
    }
  }

  function Offset(strs: seq<Str>, i: nat): nat
    requires i <= |strs|
  {
    |Flat(strs[..i])|
  }

  lemma {:induction false} FlatAt(strs: seq<Str>, i: nat)
    requires i < |strs|
    ensures var o := Offset(strs, i);
            && Offset(strs, i + 1) == o + |strs[i]| + 1 <= |Flat(strs)|
            && Flat(strs)[o..o + |strs[i]| + 1] == Zeroed(strs[i])
  {
    assert strs[..i + 1] == strs[..i] + [strs[i]] && strs == strs[..i] + [strs[i]] + strs[i + 1..];
    FlatAppend(strs[..i], [strs[i]]);
    FlatAppend(strs[..i] + [strs[i]], strs[i + 1..]);
    assert Flat([strs[i]]) == Zeroed(strs[i]) + Flat([]);
  }

  lemma {:induction false} FlatLength(strs: seq<Str>)
    ensures |Flat(strs)| >= |strs|
    decreases |strs|
  {
    if strs != [] { FlatLength(strs[1..]); }
  }

  lemma FlatStep(strs: seq<Str>, i: nat, above: Str)
    requires i < |strs|
    ensures Flat(strs[i..]) + above == Zeroed(strs[i]) + (Flat(strs[i + 1..]) + above)
    ensures Offset(strs, i + 1) == Offset(strs, i) + |strs[i]| + 1 <= |Flat(strs)|
  {
    FlatAt(strs, i);
    FlatCons(strs, i);
    StrAssoc(Zeroed(strs[i]), Flat(strs[i + 1..]), above);
  }

  lemma FlatCons(strs: seq<Str>, i: nat)
    requires i < |strs|
    ensures Flat(strs[i..]) == Zeroed(strs[i]) + Flat(strs[i + 1..])
  {
    assert strs[i..][1..] == strs[i + 1..];
  }

  lemma StrAssoc(a: Str, b: Str, c: Str)
    ensures a + b + c == a + (b + c)
  {}

  // the string at address a, up to its zero byte or the end of memory
  function ReadString(mem: seq<Byte>, a: nat): Str
    decreases |mem| - a
  {
    if a >= |mem| || mem[a] == 0 then [] else [mem[a]] + ReadString(mem, a + 1)
  }

  lemma {:induction false} ReadBack(mem: seq<Byte>, a: nat, s: Str)
    requires a + |s| + 1 <= |mem| && mem[a..a + |s| + 1] == Zeroed(s) && NoZero(s)
    ensures ReadString(mem, a) == s
    decreases |s|
  {
    assert mem[a] == mem[a..a + |s| + 1][0];
    if s != [] {
      assert mem[a + 1..a + |s| + 1] == mem[a..a + |s| + 1][1..] == Zeroed(s[1..]);
      ReadBack(mem, a + 1, s[1..]);
      assert s == [s[0]] + s[1..];
    }
  }

  // ----- the pages ------------------------------------------------------------------

  /** What copy_strings returns, 0 for a failure; Overrun when it runs below its block, as its
      own check compares an unsigned difference with zero. */
  datatype Outcome = Returned(p: nat) | Overrun

  datatype Status = Going | NoPage | Below

  // whether the byte below p lies in another page than p
  function Turns(p: nat): nat { if p >= TOP || p % PAGE_SIZE == 0 then 1 else 0 }

  // how many pages the block takes from p to its top
  function Used(p: nat): nat
    decreases TOP - p
  {
    if p >= TOP then 0 else Used(p + 1) + Turns(p + 1)
  }

  lemma {:induction false} UsedIsPages(p: nat)
    requires p <= TOP
    ensures Used(p) == if p == TOP then 0 else MAX_ARG_PAGES - p / PAGE_SIZE
    decreases TOP - p
  {
    if p < TOP { UsedIsPages(p + 1); }
  }

  lemma {:induction false} UsedGrows(p: nat, q: nat)
    requires p <= q
    ensures Used(p) >= Used(q)
    decreases q - p
  {
    if p < q { UsedGrows(p + 1, q); }
  }

  // what copy_strings returns for n bytes with zeros, from top down, with some frames to give
  function Copying(n: nat, top: nat, frames: nat): Outcome {
    var end := if n < top then top - n else 0;
    if top == 0 || Used(end) - Used(top) > frames then Returned(0) else if n <= top then Returned(end) else Overrun
  }

  // a string of len bytes that cannot be put below start decides what copy_strings returns
  lemma CopyingFails(n: nat, top: nat, frames: nat, start: nat, len: nat)
    requires 0 < top && start <= top && n >= top - start + len
    ensures Used(if start > len then start - len else 0) - Used(top) > frames ==> Copying(n, top, frames) == Returned(0)
    ensures start < len && Used(0) - Used(top) <= frames ==> Copying(n, top, frames) == Overrun
  {
    UsedGrows(if n < top then top - n else 0, if start > len then start - len else 0);
  }

  // a page missing at p - 1 is missing for all n bytes below start
  lemma PageMissing(start: nat, n: nat, p: nat, used: int, frames: nat)
    requires 0 < p && start - n < p && Used(p - 1) - used > frames
    ensures Used(if start > n then start - n else 0) - used > frames
  {
    UsedGrows(if start > n then start - n else 0, p - 1);
  }

  lemma SuffixDown(str: Str, len: nat, rest: Str)
    requires 0 < len <= |str|
    ensures [str[len - 1]] + (str[len..] + rest) == str[len - 1..] + rest
  {}

  class ArgPages {
    const mem: array2<Byte>    // page frames
    const page: array<nat>     // the frames taken, 0 for none
    var free: seq<nat>         // the frames get_free_page has to give, in order
    ghost var low: nat         // how far down the block is filled
    ghost var above: Str       // what it holds from there up

    constructor (frames: nat)
      ensures Valid() && low == TOP && |free| == frames && fresh(mem) && fresh(page)
    {
      mem := new Byte[frames + 1, PAGE_SIZE];
      page := new nat[MAX_ARG_PAGES](_ => 0);
      free := seq<nat>(frames, i requires 0 <= i < frames => i + 1);
      low, above := TOP, [];
    }

    ghost predicate FramesApart()
      reads this, page
    {
      && page.Length == MAX_ARG_PAGES && mem.Length1 == PAGE_SIZE
      && (forall k :: 0 <= k < MAX_ARG_PAGES ==> page[k] == 0 || page[k] < mem.Length0)
      && (forall j, k :: 0 <= j < k < MAX_ARG_PAGES && page[j] != 0 ==> page[j] != page[k])
      && (forall i :: 0 <= i < |free| ==> 0 < free[i] < mem.Length0)
      && (forall i, j :: 0 <= i < j < |free| ==> free[i] != free[j])
      && (forall i, k :: 0 <= i < |free| && 0 <= k < MAX_ARG_PAGES ==> free[i] != page[k])
    }

    // exactly the pages from p up are taken
    ghost predicate Taken(p: nat)
      requires page.Length == MAX_ARG_PAGES
      reads page
    {
      forall k :: 0 <= k < MAX_ARG_PAGES ==> (page[k] != 0 <==> p < TOP && k >= p / PAGE_SIZE)
    }

    /** The block as the new program will see it; a page not taken reads as zeros. */
    ghost function ByteAt(i: nat): Byte
      requires FramesApart() && i < MAX_ARG_PAGES * PAGE_SIZE
      reads this, page, mem
    {
      if page[i / PAGE_SIZE] == 0 then 0 else mem[page[i / PAGE_SIZE], i % PAGE_SIZE]
    }

    // what above says is what the block holds
    ghost predicate Reads()
      requires FramesApart()
      reads this, page, mem
    {
      low <= TOP && |above| == TOP - low && forall i :: 0 <= i < |above| ==> above[i] == ByteAt(low + i)
    }

    ghost predicate Valid()
      reads this, page, mem
    {
      FramesApart() && Reads() && Taken(low)
    }

    /** Page k gets a zeroed frame, if there is one. */
    method GetFreePage(k: nat) returns (ok: bool)
      requires FramesApart() && k < MAX_ARG_PAGES && page[k] == 0
      modifies this`free, page, mem
      ensures FramesApart() && ok == (|old(free)| > 0)
      ensures forall i :: 0 <= i < MAX_ARG_PAGES * PAGE_SIZE ==> ByteAt(i) == old(ByteAt(i))
      ensures !ok ==> free == old(free) && forall j :: 0 <= j < MAX_ARG_PAGES ==> page[j] == old(page[j])
      ensures ok ==> page[k] != 0 && free == old(free)[1..] && forall j :: 0 <= j < MAX_ARG_PAGES && j != k ==>
        page[j] == old(page[j])
    {
      if free == [] { return false; }
      var f := free[0];
      forall o | 0 <= o < PAGE_SIZE { mem[f, o] := 0; }
      page[k] := f;
      free := free[1..];
      return true;
    }

    // offset and pag follow p, or are to be set anew
    ghost predicate Follows(p: nat, offset: nat, pag: nat)
      requires page.Length == MAX_ARG_PAGES && p <= TOP
      reads page
    {
      offset == 0 || (p < TOP && offset == p % PAGE_SIZE && pag == page[p / PAGE_SIZE])
    }

    // the frame that holds byte q, just below the block
    method FrameFor(q: nat) returns (frame: nat)
      requires Valid() && q + 1 == low
      modifies this`free, page, mem
      ensures FramesApart() && Reads()
      ensures frame == 0 ==> Taken(low) && |old(free)| == 0 < Turns(low)
      ensures frame != 0 ==> Taken(q) && frame == page[q / PAGE_SIZE]
      ensures frame != 0 ==> |free| == |old(free)| - Turns(low)
    {
      var k := q / PAGE_SIZE;
      if page[k] == 0 {
        var got := GetFreePage(k);
        if !got { return 0; }
      }
      return page[k];
    }

    // the byte itself; those above it stay
    method WriteByte(q: nat, frame: nat, o: nat, b: Byte)
      requires FramesApart() && q < MAX_ARG_PAGES * PAGE_SIZE && frame == page[q / PAGE_SIZE] != 0 && o == q % PAGE_SIZE
      modifies mem
      ensures ByteAt(q) == b && forall i :: q < i < MAX_ARG_PAGES * PAGE_SIZE ==> ByteAt(i) == old(ByteAt(i))
    {
      mem[frame, o] := b;
      forall i | q < i < MAX_ARG_PAGES * PAGE_SIZE ensures ByteAt(i) == old(ByteAt(i)) { OtherByte(q, i); }
    }

    // it extends the block downwards
    method StoreByte(q: nat, frame: nat, o: nat, b: Byte)
      requires FramesApart() && Reads() && q + 1 == low && Taken(q) && frame == page[q / PAGE_SIZE] != 0
      requires o == q % PAGE_SIZE
      modifies this`low, this`above, mem
      ensures Valid() && low == q && above == [b] + old(above)
    {
      WriteByte(q, frame, o, b);
      low := q;
      above := [b] + above;
    }

    // different bytes of the block are different bytes of memory
    lemma OtherByte(q: nat, i: nat)
      requires FramesApart() && q < i < MAX_ARG_PAGES * PAGE_SIZE && page[q / PAGE_SIZE] != 0
      ensures page[i / PAGE_SIZE] != page[q / PAGE_SIZE] || i % PAGE_SIZE != q % PAGE_SIZE
    {
      if i / PAGE_SIZE == q / PAGE_SIZE { assert i % PAGE_SIZE != q % PAGE_SIZE; }
    }

    // inside a page offset and pag stay right
    lemma RunsAlong(p: nat, offset: nat, pag: nat)
      requires Valid() && 0 < p == low && Follows(p, offset, pag) && offset > 0
      ensures Turns(p) == 0 && Taken(p - 1) && pag == page[(p - 1) / PAGE_SIZE] != 0
      ensures offset - 1 == (p - 1) % PAGE_SIZE
    {}

    /** The body of copy_strings' byte loop. offset runs along with p inside a page; it falls
        below zero when a new page begins, and at the start of a call. */
    method PutByte(p: nat, offset: nat, pag: nat, b: Byte) returns (ok: bool, nextOffset: nat, nextPag: nat)
      requires Valid() && 0 < p == low && Follows(p, offset, pag)
      modifies this, page, mem
      ensures Valid() && ok == (Turns(p) <= |old(free)|)
      ensures !ok ==> low == p
      ensures ok ==> low == p - 1 && above == [b] + old(above)
      ensures ok ==> |free| == |old(free)| - Turns(p)
      ensures ok ==> Follows(p - 1, nextOffset, nextPag)
    {
      var o, frame := offset - 1, pag;
      if offset > 0 { RunsAlong(p, offset, pag); }
      if o < 0 {
        o := (p - 1) % PAGE_SIZE;
        frame := FrameFor(p - 1);
        if frame == 0 { return false, 0, 0; }
      }
      StoreByte(p - 1, frame, o, b);
      return true, o, frame;
    }

    // of the frames there were when the block was filled down to top, those in use since are gone
    ghost predicate FramesLeft(frames: nat, top: nat)
      reads this
    {
      low <= top <= TOP && |free| == frames - (Used(low) - Used(top)) <= frames
    }

    // one byte of a string, and the frames that are left
    method PutNext(p: nat, offset: nat, pag: nat, b: Byte, ghost frames: nat, ghost top: nat)
      returns (ok: bool, nextOffset: nat, nextPag: nat)
      requires Valid() && 0 < p == low && Follows(p, offset, pag) && FramesLeft(frames, top)
      modifies this, page, mem
      ensures Valid()
      ensures ok ==>
        low == p - 1 && above == [b] + old(above) && FramesLeft(frames, top) && Follows(p - 1, nextOffset, nextPag)
      ensures !ok ==> Used(p - 1) - Used(top) > frames
    {
      ok, nextOffset, nextPag := PutByte(p, offset, pag, b);
    }

    // the byte before those of str that have been copied in front of rest
    method CopyByte(str: Str, len: nat, p: nat, offset0: nat, pag0: nat, ghost rest: Str, ghost frames: nat,
          ghost top: nat)
      returns (ok: bool, offset: nat, pag: nat)
      requires Valid() && 0 < len <= |str| && 0 < p == low && above == str[len..] + rest
      requires FramesLeft(frames, top) && Follows(p, offset0, pag0)
      modifies this, page, mem
      ensures Valid()
      ensures ok ==> low == p - 1 && above == str[len - 1..] + rest
      ensures ok ==> FramesLeft(frames, top) && Follows(p - 1, offset, pag)
      ensures !ok ==> Used(p - 1) - Used(top) > frames
    {
      ok, offset, pag := PutNext(p, offset0, pag0, str[len - 1], frames, top);
      SuffixDown(str, len, rest);
    }

    /** One string, its zero byte first. */
    method CopyString(s: Str, start: nat, offset0: nat, pag0: nat, ghost frames: nat, ghost top: nat)
      returns (r: Status, p: nat, offset: nat, pag: nat)
      requires Valid() && start == low && FramesLeft(frames, top) && Follows(start, offset0, pag0)
      modifies this, page, mem
      ensures Valid()
      ensures r.Going? ==>
        && p == low == start - |s| - 1 && above == Zeroed(s) + old(above)
        && FramesLeft(frames, top) && Follows(p, offset, pag)
      ensures r.NoPage? ==> Used(if start > |s| + 1 then start - (|s| + 1) else 0) - Used(top) > frames
      ensures r.Below? ==> start <= |s| && Used(0) - Used(top) <= frames
    {
      var str := Zeroed(s);
      var len: nat := |str|;
      p, offset, pag := start, offset0, pag0;
      assert str[len..] + above == above;
      while len > 0
        invariant Valid() && len <= |str| && p == low == start - (|str| - len)
        invariant above == str[len..] + old(above)
        invariant FramesLeft(frames, top) && Follows(p, offset, pag)
      {
        if p == 0 { return Below, 0, 0, 0; }
        var ok;
        ok, offset, pag := CopyByte(str, len, p, offset, pag, old(above), frames, top);
        if !ok {
          PageMissing(start, |s| + 1, p, Used(top), frames);
          return NoPage, 0, 0, 0;
        }
        p, len := p - 1, len - 1;
      }
      assert str[0..] == str;
      return Going, p, offset, pag;
    }

    /** copy_strings: the strings, last byte first, end up one after the other below top. It
        gives 0 when pages run out. */
    method CopyStrings(strs: seq<Str>, top: nat) returns (r: Outcome)
      requires Valid() && (top == low || top == 0)
      modifies this, page, mem
      ensures Valid()
      ensures r == Copying(|Flat(strs)|, top, |old(free)|)
      ensures r.Returned? && r.p > 0 ==> low == r.p && above == Flat(strs) + old(above) && FramesLeft(|old(free)|, top)
    {
      if top == 0 { return Returned(0); }
      var p: nat, argc: nat, offset: nat, pag: nat := top, |strs|, 0, 0;
      assert Flat([]) + above == above && strs[..|strs|] == strs;
      while argc > 0
        invariant Valid() && argc <= |strs| && |Flat(strs)| == Offset(strs, argc) + (top - p) && p == low
        invariant above == Flat(strs[argc..]) + old(above)
        invariant FramesLeft(|old(free)|, top) && Follows(p, offset, pag)
      {
        argc := argc - 1;
        FlatStep(strs, argc, old(above));
        var status;
        CopyingFails(|Flat(strs)|, top, |old(free)|, p, |strs[argc]| + 1);
        status, p, offset, pag := CopyString(strs[argc], p, offset, pag, |old(free)|, top);
        match status
        case Going =>
        case NoPage => return Returned(0);
        case Below => return Overrun;
      }
      assert strs[0..] == strs;
      return Returned(p);
    }
  }

  // ----- the pointer tables ---------------------------------------------------------

  function LongAt(mem: Str, a: nat): nat
    requires a + 4 <= |mem|
  {
    mem[a] as nat + 0x100 * (mem[a + 1] as nat) + 0x1_0000 * (mem[a + 2] as nat) + 0x100_0000 * (mem[a + 3] as nat)
  }

  // the bytes of a long, the least significant first
  function LongBytes(v: nat): (r: Str)
    ensures |r| == 4 && (v < 0x1_0000_0000 ==> LongAt(r, 0) == v)
  {
    var v1 := v / 0x100; var v2 := v1 / 0x100; var v3 := v2 / 0x100;
    [v % 0x100, v1 % 0x100, v2 % 0x100, v3 % 0x100]
  }

  ghost predicate Longs(mem: Str, a: nat, vals: seq<nat>) {
    a + 4 * |vals| <= |mem| && forall i {:trigger vals[i]} :: 0 <= i < |vals| ==> LongAt(mem, a + 4 * i) == vals[i]
  }

  // two memories agree outside the long at a
  ghost predicate OnlyLong(mem: Str, r: Str, a: nat) {
    |r| == |mem| && forall x :: 0 <= x < |mem| && !(a <= x < a + 4) ==> r[x] == mem[x]
  }

  lemma AppendLong(mem: Str, r: Str, a: nat, vals: seq<nat>, v: nat)
    requires Longs(mem, a, vals) && a + 4 * |vals| + 4 <= |mem| && OnlyLong(mem, r, a + 4 * |vals|)
    requires LongAt(r, a + 4 * |vals|) == v
    ensures Longs(r, a, vals + [v])
  {
    forall i | 0 <= i < |vals| + 1 ensures LongAt(r, a + 4 * i) == (vals + [v])[i] {
      if i < |vals| { assert LongAt(mem, a + 4 * i) == vals[i]; }
    }
  }

  // put_fs_long
  method PutLong(user: array<Byte>, v: nat, a: nat)
    requires a + 4 <= user.Length && v < 0x1_0000_0000
    modifies user
    ensures OnlyLong(old(user[..]), user[..], a) && LongAt(user[..], a) == v
  {
    var b := LongBytes(v);
    user[a] := b[0];
    user[a + 1] := b[1];
    user[a + 2] := b[2];
    user[a + 3] := b[3];
  }

  // the strings lie one after the other from address p on
  ghost predicate Placed(mem: Str, p: nat, strs: seq<Str>) {
    && p + |Flat(strs)| <= |mem| && AllStrings(strs)
    && forall j :: 0 <= j < |Flat(strs)| ==> mem[p + j] == Flat(strs)[j]
  }

  lemma PlacedAt(mem: Str, p: nat, strs: seq<Str>, i: nat)
    requires Placed(mem, p, strs) && i < |strs|
    ensures var a := p + Offset(strs, i);
            && a + |strs[i]| + 1 == p + Offset(strs, i + 1) <= p + |Flat(strs)|
            && mem[a..a + |strs[i]| + 1] == Zeroed(strs[i]) && NoZero(strs[i])
  {
    FlatAt(strs, i);
    var o, s := Offset(strs, i), strs[i];
    forall j | 0 <= j <= |s| ensures mem[p + o + j] == Zeroed(s)[j] {
      assert Flat(strs)[o..o + |s| + 1][j] == Flat(strs)[o + j];
      assert mem[p + (o + j)] == Flat(strs)[o + j];
    }
  }

  // the place behind the string at start
  method SkipString(user: array<Byte>, start: nat, ghost s: Str) returns (p: nat)
    requires start + |s| + 1 <= user.Length && user[start..start + |s| + 1] == Zeroed(s) && NoZero(s)
    ensures p == start + |s| + 1
  {
    p := start;
    assert user[start..start + |s| + 1][|s|] == 0;
    while user[p] != 0
      invariant start <= p <= start + |s|
      decreases start + |s| - p
    {
      assert user[p] == user[start..start + |s| + 1][p - start];
      p := p + 1;
    }
    assert user[p] == user[start..start + |s| + 1][p - start];
    p := p + 1;
  }

  // the addresses of n strings, from number k on
  function Pointers(p: nat, strs: seq<Str>, k: nat, n: nat): (r: seq<nat>)
    requires k + n <= |strs|
    ensures |r| == n && forall j :: 0 <= j < n ==> r[j] == p + Offset(strs, k + j)
  {
    seq<nat>(n, j requires 0 <= j < n => (p + Offset(strs, k + j)) as nat)
  }

  // what create_tables leaves from sp up: argc, argv, envp and the two tables
  function Tables(p: nat, strs: seq<Str>, argc: nat, envc: nat, sp: nat): seq<nat>
    requires argc + envc <= |strs|
  {
    [argc, sp + 12, sp + 12 + 4 * (argc + 1)] + Pointers(p, strs, 0, argc) + [0] + Pointers(p, strs, argc, envc) + [0]
  }

  // the address where the tables start: 0xfffffffc & p, less the tables
  function StackTop(p: nat, argc: nat, envc: nat): int { p / 4 * 4 - 4 * (argc + envc + 5) }

  // aligned, with less than a long between tables and strings
  lemma StackTopIs(p: nat, argc: nat, envc: nat)
    ensures var sp := StackTop(p, argc, envc); sp % 4 == 0 && p - 4 < sp + 4 * (argc + envc + 5) <= p
  {}

  /** The turn of a loop of create_tables: a pointer, and on to the next string. */
  method PutPointer(user: array<Byte>, q: nat, t: nat, ghost strs: seq<Str>, ghost i: nat, ghost p: nat,
        ghost sp: nat, ghost vals: seq<nat>)
    returns (next: nat)
    requires user.Length == LIMIT && i < |strs| && t == sp + 4 * |vals| && t + 4 <= p
    requires Placed(user[..], p, strs) && q == p + Offset(strs, i) && Longs(user[..], sp, vals)
    modifies user
    ensures next == p + Offset(strs, i + 1)
    ensures Longs(user[..], sp, vals + [q]) && Placed(user[..], p, strs) && OnlyLong(old(user[..]), user[..], t)
  {
    ghost var mem := user[..];
    PlacedAt(mem, p, strs, i);
    PutLong(user, q, t);
    AppendLong(mem, user[..], sp, vals, q);
    assert Placed(user[..], p, strs);
    PlacedAt(user[..], p, strs, i);
    next := SkipString(user, q, strs[i]);
  }

  lemma PointersStep(p: nat, strs: seq<Str>, k: nat, n: nat)
    requires k + n < |strs|
    ensures Pointers(p, strs, k, n + 1) == Pointers(p, strs, k, n) + [p + Offset(strs, k + n)]
  {}

  // outside [from, to) memory is as it was
  ghost predicate Same(mem: Str, r: Str, from: nat, to: nat) {
    |r| == |mem| && forall x :: 0 <= x < |mem| && !(from <= x < to) ==> r[x] == mem[x]
  }

  /** One of the two loops of create_tables, with the zero that ends the table. */
  method FillTable(user: array<Byte>, n: nat, table: nat, start: nat, ghost strs: seq<Str>, ghost k: nat,
        ghost p: nat, ghost sp: nat, ghost vals: seq<nat>)
    returns (q: nat)
    requires user.Length == LIMIT && k + n <= |strs| && table == sp + 4 * |vals| && table + 4 * (n + 1) <= p
    requires Placed(user[..], p, strs) && start == p + Offset(strs, k) && Longs(user[..], sp, vals)
    modifies user
    ensures q == p + Offset(strs, k + n)
    ensures Longs(user[..], sp, vals + Pointers(p, strs, k, n) + [0]) && Placed(user[..], p, strs)
    ensures Same(old(user[..]), user[..], table, table + 4 * (n + 1))
  {
    q := start;
    var t, count: nat := table, n;
    ghost var done: nat, now := 0, vals;
    assert vals + Pointers(p, strs, k, 0) == vals;
    while count > 0
      invariant done + count == n && t == table + 4 * done && q == p + Offset(strs, k + done)
      invariant now == vals + Pointers(p, strs, k, done) && Longs(user[..], sp, now)
      invariant Placed(user[..], p, strs) && Same(old(user[..]), user[..], table, t)
    {
      PointersStep(p, strs, k, done);
      now := now + [q];
      q := PutPointer(user, q, t, strs, k + done, p, sp, vals + Pointers(p, strs, k, done));
      t, count, done := t + 4, count - 1, done + 1;
    }
    ghost var mem := user[..];
    PutLong(user, 0, t);
    AppendLong(mem, user[..], sp, now, 0);
  }

  // the three longs pushed below the tables
  method PutHeader(user: array<Byte>, argv: nat, envp: nat, argc: nat, ghost p: nat, ghost strs: seq<Str>)
    returns (sp: nat)
    requires user.Length == LIMIT && 12 <= argv <= p && envp < LIMIT && argc < LIMIT && Placed(user[..], p, strs)
    modifies user
    ensures sp == argv - 12 && Longs(user[..], sp, [argc, argv, envp])
    ensures Placed(user[..], p, strs) && Same(old(user[..]), user[..], sp, p)
  {
    sp := argv - 4;
    PutLong(user, envp, sp);
    sp := sp - 4;
    PutLong(user, argv, sp);
    sp := sp - 4;
    PutLong(user, argc, sp);
    assert LongAt(user[..], sp + 4) == argv && LongAt(user[..], sp + 8) == envp;
  }

  /** create_tables: everything below the strings that the new program finds at its stack
      pointer. */
  method CreateTables(user: array<Byte>, p: nat, argc: nat, envc: nat, ghost strs: seq<Str>) returns (sp: nat)
    requires user.Length == LIMIT && argc + envc <= |strs| && Placed(user[..], p, strs) && StackTop(p, argc, envc) >= 0
    modifies user
    ensures sp == StackTop(p, argc, envc) && Longs(user[..], sp, Tables(p, strs, argc, envc, sp))
    ensures sp % 4 == 0 && p - 4 < sp + 4 * (argc + envc + 5) <= p
    ensures Placed(user[..], p, strs)
    ensures Same(old(user[..]), user[..], sp, p)
  {
    StackTopIs(p, argc, envc);
    sp := p / 4 * 4;
    var envp := sp - 4 * (envc + 1);
    var argv := envp - 4 * (argc + 1);
    sp := PutHeader(user, argv, envp, argc, p, strs);
    ghost var vals: seq<nat> := [argc, argv, envp];
    assert strs[..0] == [];
    var q := FillTable(user, argc, argv, p, strs, 0, p, sp, vals);
    vals := vals + Pointers(p, strs, 0, argc) + [0];
    q := FillTable(user, envc, envp, q, strs, argc, p, sp, vals);
  }

  // ----- the new program's view -----------------------------------------------------

  ghost predicate TableOf(mem: Str, table: nat, strs: seq<Str>) {
    && table + 4 * (|strs| + 1) <= |mem|
    && (forall i :: 0 <= i < |strs| ==> ReadString(mem, LongAt(mem, table + 4 * i)) == strs[i])
    && LongAt(mem, table + 4 * |strs|) == 0
  }

  /** At the stack pointer: the number of arguments, and two tables of pointers to the arguments
      and the environment, each ended by a nil. */
  ghost predicate Launched(mem: Str, sp: nat, args: seq<Str>, envs: seq<Str>) {
    && sp + 12 <= |mem| && LongAt(mem, sp) == |args|
    && TableOf(mem, LongAt(mem, sp + 4), args) && TableOf(mem, LongAt(mem, sp + 8), envs)
  }

  // the parts of the tables
  ghost predicate TableParts(t: seq<nat>, p: nat, strs: seq<Str>, argc: nat, envc: nat, sp: nat)
    requires argc + envc <= |strs|
  {
    && |t| == argc + envc + 5
    && t[0] == argc && t[1] == sp + 12 && t[2] == sp + 12 + 4 * (argc + 1)
    && t[3..3 + argc] == Pointers(p, strs, 0, argc) && t[3 + argc] == 0
    && t[4 + argc..4 + argc + envc] == Pointers(p, strs, argc, envc) && t[4 + argc + envc] == 0
  }

  lemma TablesHaveParts(p: nat, strs: seq<Str>, argc: nat, envc: nat, sp: nat)
    requires argc + envc <= |strs|
    ensures TableParts(Tables(p, strs, argc, envc, sp), p, strs, argc, envc, sp)
  {}

  // the i-th pointer leads to the i-th string
  lemma PointerLeads(mem: Str, p: nat, strs: seq<Str>, i: nat)
    requires Placed(mem, p, strs) && i < |strs|
    ensures ReadString(mem, p + Offset(strs, i)) == strs[i]
  {
    PlacedAt(mem, p, strs, i);
    ReadBack(mem, p + Offset(strs, i), strs[i]);
  }

  lemma TableLeads(mem: Str, p: nat, all: seq<Str>, sp: nat, t: seq<nat>, from: nat, k: nat, strs: seq<Str>)
    requires Placed(mem, p, all) && Longs(mem, sp, t) && from + |strs| < |t| && k + |strs| <= |all|
    requires all[k..k + |strs|] == strs
    requires t[from..from + |strs|] == Pointers(p, all, k, |strs|) && t[from + |strs|] == 0
    ensures TableOf(mem, sp + 4 * from, strs)
  {
    forall i | 0 <= i < |strs| ensures ReadString(mem, LongAt(mem, sp + 4 * from + 4 * i)) == strs[i] {
      assert t[from + i] == t[from..from + |strs|][i] == p + Offset(all, k + i);
      assert LongAt(mem, sp + 4 * (from + i)) == t[from + i];
      PointerLeads(mem, p, all, k + i);
      assert all[k..k + |strs|][i] == all[k + i];
    }
    assert LongAt(mem, sp + 4 * (from + |strs|)) == t[from + |strs|];
  }

  /** create_tables behind copied strings: the new program finds every argument and every
      variable again. */
  lemma PartsLaunch(mem: Str, p: nat, args: seq<Str>, envs: seq<Str>, sp: nat, t: seq<nat>)
    requires Placed(mem, p, args + envs) && Longs(mem, sp, t) && TableParts(t, p, args + envs, |args|, |envs|, sp)
    ensures Launched(mem, sp, args, envs)
  {
    var all := args + envs;
    assert all[0..0 + |args|] == args && all[|args|..|args| + |envs|] == envs;
    TableLeads(mem, p, all, sp, t, 3, 0, args);
    TableLeads(mem, p, all, sp, t, 4 + |args|, |args|, envs);
    assert LongAt(mem, sp + 4 * 0) == t[0] && LongAt(mem, sp + 4 * 1) == t[1] && LongAt(mem, sp + 4 * 2) == t[2];
  }

  // ----- do_execve ------------------------------------------------------------------

  // the strings of several calls of copy_strings as they end up, the last call's first
  function Joined(groups: seq<seq<Str>>): seq<Str>
    decreases |groups|
  {
    if groups == [] then [] else groups[|groups| - 1] + Joined(groups[..|groups| - 1])
  }

  // whether n bytes fit, with some frames to give; a block filled to its very end does not count
  predicate Fits(n: nat, frames: nat) { n < TOP && Used(TOP - n) <= frames }

  lemma CopyingMore(n: nat, m: nat, frames: nat)
    requires Fits(n, frames)
    ensures var r := Copying(m, TOP - n, frames - Used(TOP - n));
            && (Fits(n + m, frames) <==> r.Returned? && r.p > 0)
            && (Fits(n + m, frames) ==> r.p == TOP - (n + m))
            && (r.Overrun? <==> n + m > TOP && Used(0) <= frames)
  {
    if n + m < TOP { UsedGrows(TOP - (n + m), TOP - n); }
  }

  lemma FitsLess(n: nat, m: nat, frames: nat)
    requires n <= m && Fits(m, frames)
    ensures Fits(n, frames)
  {
    UsedGrows(TOP - m, TOP - n);
  }

  // a further m bytes fit exactly when the n before them did and copy_strings takes them
  lemma GroupFits(n: nat, m: nat, frames: nat)
    ensures Fits(n, frames) ==>
              var r := Copying(m, TOP - n, frames - Used(TOP - n));
              && (Fits(n + m, frames) <==> r.Returned? && r.p > 0)
              && (Fits(n + m, frames) ==> r.p == TOP - (n + m))
              && (r.Overrun? <==> n + m > TOP && Used(0) <= frames)
    ensures !Fits(n, frames) ==> !Fits(n + m, frames) && (n >= TOP || Used(0) > frames)
  {
    if Fits(n, frames) {
      CopyingMore(n, m, frames);
    } else {
      if Fits(n + m, frames) { FitsLess(n, n + m, frames); }
      UsedGrows(0, if n < TOP then TOP - n else 0);
    }
  }

  // the bytes of the strings of the first k calls
  function Total(groups: seq<seq<Str>>, k: nat): nat
    requires k <= |groups|
  {
    |Flat(Joined(groups[..k]))|
  }

  // call k starts inside the block and ends below it
  predicate OverrunAt(groups: seq<seq<Str>>, k: nat)
    requires k < |groups|
  {
    Total(groups, k) < TOP < Total(groups, k + 1)
  }

  // some call does, and no page is missing before it gets there
  ghost predicate Overruns(groups: seq<seq<Str>>, frames: nat) {
    Used(0) <= frames && exists k {:trigger OverrunAt(groups, k)} :: 0 <= k < |groups| && OverrunAt(groups, k)
  }

  // after the first i calls, at p
  ghost predicate Copied(pages: ArgPages, groups: seq<seq<Str>>, i: nat, p: nat, frames: nat)
    requires i <= |groups|
    reads pages, pages.page, pages.mem
  {
    && (p > 0 <==> Fits(Total(groups, i), frames))
    && (p > 0 ==> p == pages.low && pages.above == Flat(Joined(groups[..i])) && pages.FramesLeft(frames, TOP))
  }

  // the next call
  method CopyGroup(pages: ArgPages, groups: seq<seq<Str>>, i: nat, p: nat, ghost frames: nat) returns (r: Outcome)
    requires pages.Valid() && i < |groups| && Copied(pages, groups, i, p, frames)
    modifies pages, pages.page, pages.mem
    ensures pages.Valid()
    ensures r.Overrun? <==> Used(0) <= frames && OverrunAt(groups, i)
    ensures r.Returned? ==> Copied(pages, groups, i + 1, r.p, frames)
  {
    GroupStep(groups, i);
    GroupFits(Total(groups, i), |Flat(groups[i])|, frames);
    r := pages.CopyStrings(groups[i], p);
  }

  /** The calls of copy_strings one after the other, each from where the one before ended. */
  method CopyGroups(pages: ArgPages, groups: seq<seq<Str>>) returns (r: Outcome)
    requires pages.Valid() && pages.low == TOP
    modifies pages, pages.page, pages.mem
    ensures pages.Valid()
    ensures r.Returned? && r.p > 0 <==> Fits(|Flat(Joined(groups))|, |old(pages.free)|)
    ensures r.Returned? && r.p > 0 ==> r.p == pages.low && pages.above == Flat(Joined(groups))
    ensures r.Overrun? <==> Overruns(groups, |old(pages.free)|)
  {
    var p: nat, i: nat := TOP, 0;
    ghost var frames := |pages.free|;
    assert groups[..0] == [] && groups[..|groups|] == groups;
    while i < |groups|
      invariant i <= |groups| && pages.Valid() && Copied(pages, groups, i, p, frames)
      invariant Used(0) <= frames ==> forall k {:trigger OverrunAt(groups, k)} :: 0 <= k < i ==> !OverrunAt(groups, k)
    {
      r := CopyGroup(pages, groups, i, p, frames);
      if r.Overrun? {
        OverrunLater(groups, i, frames);
        return Overrun;
      }
      p, i := r.p, i + 1;
    }
    return Returned(p);
  }

  // once below the block, what all calls together take fits no more
  lemma OverrunLater(groups: seq<seq<Str>>, i: nat, frames: nat)
    requires i < |groups| && OverrunAt(groups, i)
    ensures !Fits(|Flat(Joined(groups))|, frames)
  {
    TotalGrows(groups, i + 1);
  }

  lemma {:induction false} TotalGrows(groups: seq<seq<Str>>, i: nat)
    requires i <= |groups|
    ensures Total(groups, i) <= |Flat(Joined(groups))|
    decreases |groups| - i
  {
    if i == |groups| {
      assert groups[..i] == groups;
    } else {
      GroupStep(groups, i);
      TotalGrows(groups, i + 1);
    }
  }

  lemma GroupStep(groups: seq<seq<Str>>, i: nat)
    requires i < |groups|
    ensures Flat(Joined(groups[..i + 1])) == Flat(groups[i]) + Flat(Joined(groups[..i]))
  {
    assert groups[..i + 1][..i] == groups[..i];
    FlatAppend(groups[i], Joined(groups[..i]));
  }

  // change_ldt: the pages go to the top of the data segment
  method MapPages(pages: ArgPages, user: array<Byte>)
    requires pages.Valid() && user.Length == LIMIT
    modifies user
    ensures forall i :: 0 <= i < |pages.above| ==> user[BASE + pages.low + i] == pages.above[i]
  {
    var i := 0;
    while i < MAX_ARG_PAGES * PAGE_SIZE
      invariant 0 <= i <= MAX_ARG_PAGES * PAGE_SIZE && pages.Valid()
      invariant forall j :: 0 <= j < i && pages.page[j / PAGE_SIZE] != 0 ==> user[BASE + j] == pages.ByteAt(j)
    {
      if pages.page[i / PAGE_SIZE] != 0 { user[BASE + i] := pages.mem[pages.page[i / PAGE_SIZE], i % PAGE_SIZE]; }
      i := i + 1;
    }
    forall i | 0 <= i < |pages.above| ensures user[BASE + pages.low + i] == pages.above[i] {
      assert pages.page[(pages.low + i) / PAGE_SIZE] != 0;
    }
  }

  /** A file that starts with #! names an interpreter and perhaps an argument for it. */
  datatype Script = NoScript | Script(name: Str, hasArg: bool, arg: Str, filename: Str)

  // what is put before the arguments of a script, instead of its argv[0]
  function Spliced(s: Script): seq<Str> {
    if s.NoScript? then [] else [s.name] + (if s.hasArg then [s.arg] else []) + [s.filename]
  }

  // the arguments the new program is to see
  function Arguments(argv: seq<Str>, s: Script): seq<Str> {
    if s.NoScript? then argv else Spliced(s) + if argv == [] then [] else argv[1..]
  }

  /** They are those of the call, unless a script is run: then its interpreter's name, the argument
      for the interpreter if there is one, the script's file and the arguments from the second on. */
  lemma ArgumentsAre(argv: seq<Str>, s: Script)
    ensures s.NoScript? ==> Arguments(argv, s) == argv
    ensures s.Script? ==>
              var r, h := Arguments(argv, s), if s.hasArg then 1 else 0;
              && |r| == h + 1 + Max(|argv|, 1)
              && r[0] == s.name && (s.hasArg ==> r[1] == s.arg) && r[h + 1] == s.filename
              && forall i :: 1 <= i < |argv| ==> r[h + 1 + i] == argv[i]
  {}

  datatype Result = Launch(sp: nat) | NoMemory | Broken

  lemma JoinedOne(groups: seq<seq<Str>>, g: seq<Str>)
    ensures Joined(groups + [g]) == g + Joined(groups)
  {
    assert (groups + [g])[..|groups|] == groups;
  }

  // argc as do_execve counts it
  function Counted(argv: seq<Str>, s: Script): nat { if s.NoScript? then |argv| else |argv| - 1 + |Spliced(s)| }

  lemma SplicedIs(s: Script, tail: seq<Str>)
    requires s.Script?
    ensures [s.name] + ((if s.hasArg then [s.arg] else []) + ([s.filename] + tail)) == Spliced(s) + tail
    ensures [] + ([s.filename] + tail) == [s.filename] + tail
  {}

  // the strings of do_execve's calls of copy_strings, in order
  function GroupsOf(argv: seq<Str>, envp: seq<Str>, s: Script): seq<seq<Str>> {
    if s.NoScript? then [envp, argv]
    else [envp, if argv == [] then [] else argv[1..], [s.filename]] + (if s.hasArg then [[s.arg]] else []) + [[s.name]]
  }

  // they end up as arguments and environment
  lemma GroupsJoin(argv: seq<Str>, envp: seq<Str>, s: Script)
    ensures Joined(GroupsOf(argv, envp, s)) == Arguments(argv, s) + envp
  {
    JoinedOne([], envp);
    assert Joined([envp]) == envp by { assert [] + [envp] == [envp] && envp + Joined([]) == envp; }
    if s.NoScript? {
      JoinedOne([envp], argv);
      assert [envp] + [argv] == GroupsOf(argv, envp, s);
    } else {
      ScriptJoins(argv, envp, s, if argv == [] then [] else argv[1..]);
    }
  }

  lemma ScriptJoins(argv: seq<Str>, envp: seq<Str>, s: Script, rest: seq<Str>)
    requires s.Script? && Joined([envp]) == envp && rest == if argv == [] then [] else argv[1..]
    ensures Joined(GroupsOf(argv, envp, s)) == Arguments(argv, s) + envp
  {
    var g := [envp] + [rest] + [[s.filename]];
    JoinedOne([envp], rest);
    JoinedOne([envp] + [rest], [s.filename]);
    if s.hasArg {
      JoinedOne(g, [s.arg]);
      JoinedOne(g + [[s.arg]], [s.name]);
      assert g + [[s.arg]] + [[s.name]] == GroupsOf(argv, envp, s);
    } else {
      JoinedOne(g, [s.name]);
      assert g + [[s.name]] == GroupsOf(argv, envp, s);
    }
    SplicedIs(s, rest + envp);
    assert Spliced(s) + (rest + envp) == Spliced(s) + rest + envp;
  }

  /** The strings of do_execve's calls of copy_strings, in order, and its argc. */
  method Groups(argv: seq<Str>, envp: seq<Str>, script: Script) returns (groups: seq<seq<Str>>, argc: nat)
    ensures groups == GroupsOf(argv, envp, script) && Joined(groups) == Arguments(argv, script) + envp
    ensures argc == Counted(argv, script)
  {
    GroupsJoin(argv, envp, script);
    groups := [envp];
    if script.NoScript? { return groups + [argv], |argv|; }
    var count := |argv| - 1;
    groups := groups + [if count > 0 then argv[1..] else []];
    groups, count := groups + [[script.filename]], count + 1;
    if script.hasArg { groups, count := groups + [[script.arg]], count + 1; }
    groups, count := groups + [[script.name]], count + 1;
    argc := count;
  }

  // a wrong number at the stack pointer is enough
  lemma CountShows(mem: Str, sp: nat, t: seq<nat>, args: seq<Str>, envs: seq<Str>)
    requires Longs(mem, sp, t) && |t| > 3 && t[0] != |args|
    ensures !Launched(mem, sp, args, envs)
  {
    assert LongAt(mem, sp + 4 * 0) == t[0];
  }

  /** With the tables behind its strings the program is launched as it should be, except when a
      script was called with no arguments at all: then argc is one too small. */
  lemma LaunchIff(mem: Str, p: nat, argv: seq<Str>, envp: seq<Str>, s: Script, sp: nat)
    requires var strs := Arguments(argv, s) + envp; Counted(argv, s) + |envp| <= |strs| && Placed(mem, p, strs)
    requires Longs(mem, sp, Tables(p, Arguments(argv, s) + envp, Counted(argv, s), |envp|, sp))
    ensures Launched(mem, sp, Arguments(argv, s), envp) <==> s.NoScript? || argv != []
  {
    var strs, argc := Arguments(argv, s) + envp, Counted(argv, s);
    var t := Tables(p, strs, argc, |envp|, sp);
    TablesHaveParts(p, strs, argc, |envp|, sp);
    CountedIff(argv, s);
    if s.NoScript? || argv != [] {
      PartsLaunch(mem, p, Arguments(argv, s), envp, sp, t);
    } else {
      CountShows(mem, sp, t, Arguments(argv, s), envp);
    }
  }

  lemma CountedIff(argv: seq<Str>, s: Script)
    ensures Counted(argv, s) == |Arguments(argv, s)| <==> s.NoScript? || argv != []
  {}

  lemma AboveIsPlaced(mem: Str, p: nat, above: Str, strs: seq<Str>)
    requires |mem| == LIMIT && p <= TOP && |above| == TOP - p && above == Flat(strs) && AllStrings(strs)
    requires forall i :: 0 <= i < |above| ==> mem[BASE + p + i] == above[i]
    ensures Placed(mem, BASE + p, strs) && |strs| <= TOP
  {
    FlatLength(strs);
  }

  /** The argument handling of do_execve. Arguments and environment survive whenever they fit,
      except that a script called with no arguments at all loses count. The copy runs below its
      block when one of its calls passes the end and all pages are there; else memory is short. */
  method Execve(pages: ArgPages, user: array<Byte>, argv: seq<Str>, envp: seq<Str>, script: Script) returns (r: Result)
    requires pages.Valid() && pages.low == TOP && user.Length == LIMIT
    requires AllStrings(Arguments(argv, script) + envp)
    modifies pages, pages.page, pages.mem, user
    ensures r.Launch? <==> Fits(|Flat(Arguments(argv, script) + envp)|, |old(pages.free)|)
    ensures r.Broken? <==> Overruns(GroupsOf(argv, envp, script), |old(pages.free)|)
    ensures r.Launch? ==> (Launched(user[..], r.sp, Arguments(argv, script), envp) <==> script.NoScript? || argv != [])
    ensures r.Launch? ==>
      var p := BASE + TOP - |Flat(Arguments(argv, script) + envp)|;
      r.sp % 4 == 0 && p - 4 < r.sp + 4 * (Counted(argv, script) + |envp| + 5) <= p
  {
    ghost var strs := Arguments(argv, script) + envp;
    var groups, argc := Groups(argv, envp, script);
    var c := CopyGroups(pages, groups);
    if c.Overrun? { return Broken; }
    if c.p == 0 { return NoMemory; }
    var sp := LaunchAt(pages, user, argv, envp, script, argc, c.p);
    return Launch(sp);
  }

  // the rest of do_execve, behind strings that have been copied
  method LaunchAt(pages: ArgPages, user: array<Byte>, argv: seq<Str>, envp: seq<Str>, script: Script, argc: nat, p: nat)
    returns (sp: nat)
    requires pages.Valid() && user.Length == LIMIT && 0 < p == pages.low && argc == Counted(argv, script)
    requires AllStrings(Arguments(argv, script) + envp) && pages.above == Flat(Arguments(argv, script) + envp)
    modifies user
    ensures Launched(user[..], sp, Arguments(argv, script), envp) <==> script.NoScript? || argv != []
    ensures sp % 4 == 0 && BASE + p - 4 < sp + 4 * (Counted(argv, script) + |envp| + 5) <= BASE + p
  {
    ghost var strs := Arguments(argv, script) + envp;
    MapPages(pages, user);
    AboveIsPlaced(user[..], p, pages.above, strs);
    sp := CreateTables(user, BASE + p, argc, |envp|, strs);
    LaunchIff(user[..], BASE + p, argv, envp, script, sp);
  }

  // ----- both failures happen -------------------------------------------------------

  /** A single variable as long as the block, or longer, makes the copy run below it when all 32
      pages can be had. */
  lemma OverrunHappens(e: Str, frames: nat)
    requires |e| >= TOP && frames >= MAX_ARG_PAGES
    ensures Overruns(GroupsOf([], [e], NoScript), frames)
  {
    var groups := GroupsOf([], [e], NoScript);
    UsedIsPages(0);
    assert groups[..0] == [] && groups[..1] == [] + [[e]];
    JoinedOne([], [e]);
    assert [e] + Joined([]) == [e] && Flat([e]) == Zeroed(e) + Flat([]);
    assert Total(groups, 0) == 0 && Total(groups, 1) == |e| + 1;
    assert OverrunAt(groups, 0);
  }

  // a script called as it should not be: f names the interpreter i
  function Short(): Script { Script(['i' as int], false, [], ['f' as int]) }

  lemma ShortFits(frames: nat)
    requires frames > 0
    ensures Fits(|Flat(Arguments([], Short()) + [])|, frames) && AllStrings(Arguments([], Short()) + [])
  {
    var strs: seq<Str> := [['i' as int], ['f' as int]];
    assert Arguments([], Short()) + [] == strs;
    FlatCons(strs, 0);
    FlatCons(strs, 1);
    assert strs[0..] == strs && |Flat(strs[2..])| == 0;
    assert |Flat(strs)| == 4;
    UsedIsPages(TOP - 4);
  }

  /** A script called with no arguments fits into a single page, is launched all the same, and
      does not see the arguments it should. */
  method LaunchShort(pages: ArgPages, user: array<Byte>) returns (sp: nat)
    requires pages.Valid() && pages.low == TOP && pages.free != [] && user.Length == LIMIT
    modifies pages, pages.page, pages.mem, user
    ensures !Launched(user[..], sp, Arguments([], Short()), [])
  {
    ShortFits(|pages.free|);
    var r := Execve(pages, user, [], [], Short());
    sp := r.sp;
  }
}
