/** bitmap.c, _bmap of inode.c, file_dev.c and truncate.c as they run: loops over the zone
    bitmap, the indirect blocks and the bytes, updating all of them in place. */
module FileSystem {
  import opened Basics
  import opened FileStore
  import opened FileOwnership
  import opened FileCreate
  import opened FileContents
  import opened FileTruncate

  class Device {
    const first: nat
    const zones: nat
    const zmap: array<bool>
    const disk: array<Block>
    const inodes: array<Inode>
    var busy: set<nat>
    var pinned: set<nat>
    var panicked: bool

    ghost function St(): Store
      reads this, zmap, disk, inodes
    {
      Store(first, zones, zmap[..], disk[..], inodes[..], busy, pinned, panicked)
    }

    ghost predicate Valid()
      reads this, zmap, disk, inodes
    {
      && Shape(St()) && zmap as object != disk as object && zmap as object != inodes as object
      && disk as object != inodes as object
    }

    constructor (first: nat, zones: nat, zmap: array<bool>, disk: array<Block>, inodes: array<Inode>)
      requires Shape(Store(first, zones, zmap[..], disk[..], inodes[..], {}, {}, false))
      requires zmap as object != disk as object && zmap as object != inodes as object
      requires disk as object != inodes as object
      ensures Valid() && this.zmap == zmap && this.disk == disk && this.inodes == inodes
      ensures St() == Store(first, zones, zmap[..], disk[..], inodes[..], {}, {}, false)
    {
      this.first, this.zones, this.zmap, this.disk, this.inodes := first, zones, zmap, disk, inodes;
      busy, pinned, panicked := {}, {}, false;
    }

    // ----- bitmap.c -----------------------------------------------------------------

    // the lowest clear bit of one bitmap block, or MAP_BITS
    method FindFirstZero(base: nat) returns (j: nat)
      requires Valid() && base + MAP_BITS <= zmap.Length
      ensures j <= MAP_BITS && (j < MAP_BITS ==> !zmap[base + j])
      ensures forall k :: base <= k < base + j ==> zmap[k]
    {
      j := 0;
      while j < MAP_BITS && zmap[base + j]
        invariant j <= MAP_BITS
        invariant forall k :: base <= k < base + j ==> zmap[k]
      {
        j := j + 1;
      }
    }

    method NewBlock() returns (b: nat)
      requires Valid()
      modifies this, zmap, disk, inodes
      ensures Valid() && b == FreeZone(old(St())) && St() == TakeZone(old(St()))
    {
      ghost var bits := zmap[..];
      var i, j := 0, MAP_BITS;
      while i < zmap.Length / MAP_BITS
        invariant 0 <= i <= zmap.Length / MAP_BITS
        invariant Valid() && St() == old(St()) && zmap[..] == bits
        invariant forall k :: 0 <= k < i * MAP_BITS ==> bits[k]
        invariant |bits| == zmap.Length && |bits| % MAP_BITS == 0
      {
        j := FindFirstZero(i * MAP_BITS);
        if j < MAP_BITS { break; }
        i := i + 1;
      }
      if i == zmap.Length / MAP_BITS {
        FirstZeroAt(bits, 0, |bits|);
        return 0;
      }
      var k := i * MAP_BITS + j;
      FirstZeroAt(bits, 0, k);
      zmap[k] := true;
      assert zmap[..] == bits[k := true];
      if k + first - 1 >= zones { return 0; }
      b := k + first - 1;
      if b == 0 { return; }
      if b in busy { panicked := true; return; }
      ghost var blocks := disk[..];
      disk[b] := ZeroBlock();
      assert disk[..] == blocks[b := ZeroBlock()];
    }

    method ReleaseBlock(b: nat)
      requires Valid()
      modifies this, zmap, disk, inodes
      ensures Valid() && St() == FreeBlock(old(St()), b)
    {
      if b < first || b >= zones { panicked := true; return; }
      if b in busy {
        pinned := pinned + {b};
        return;
      }
      var k := b - first + 1;
      if !zmap[k] { panicked := true; return; }
      zmap[k] := false;
      assert zmap[..] == old(zmap[..])[k := false];
    }

    // ----- inode.c ------------------------------------------------------------------

    method PutZone(i: nat, k: nat, n: nat)
      requires Valid() && i < inodes.Length && k < 9
      modifies this, zmap, disk, inodes
      ensures Valid() && St() == SetZone(old(St()), i, k, n)
    {
      inodes[i] := inodes[i].(zone := inodes[i].zone[k := n]);
      assert inodes[..] == old(inodes[..])[i := inodes[i]];
    }

    method FillInodeZone(i: nat, k: nat)
      requires Valid() && i < inodes.Length && k < 9
      modifies this, zmap, disk, inodes
      ensures Valid() && St() == FillZone(old(St()), i, k)
    {
      if inodes[i].zone[k] == 0 {
        var n := NewBlock();
        if n != 0 { PutZone(i, k, n); }
      }
    }

    method FillEntry(b: nat, j: nat)
      requires Valid() && 0 < b < zones && j < ENTRIES
      modifies this, zmap, disk, inodes
      ensures Valid() && St() == FillPointer(old(St()), b, j)
    {
      if Entry(disk[b], j) == 0 {
        var n := NewBlock();
        if n != 0 {
          ghost var blocks := disk[..];
          disk[b] := SetEntry(disk[b], j, n);
          assert disk[..] == blocks[b := SetEntry(blocks[b], j, n)];
        }
      }
    }

    /** _bmap with its create flag: it answers what the zone numbers of the inode and the bytes of the
        indirect blocks say afterwards. Block numbers below MAX_BLOCKS, the source panics beyond. */
    method MapBlock(i: nat, block: nat, create: bool) returns (b: nat)
      requires Valid() && Inv(St()) && i < inodes.Length && block < MAX_BLOCKS
      modifies this, zmap, disk, inodes
      ensures Valid() && Inv(St()) && St() == (if create then CreateBlock(old(St()), i, block) else old(St()))
      ensures b == Bmap(St(), i, block) && MapsTo(disk[..], inodes[i].zone, block, b)
    {
      ghost var s := St();
      if create { CreateBlockStep(s, i, block); }
      BmapIsOnDisk(if create then CreateBlock(s, i, block) else s, i, block);
      if block < 7 {
        if create { FillInodeZone(i, block); }
        return inodes[i].zone[block];
      }
      if block - 7 < ENTRIES { b := MapSingle(i, block, create); } else { b := MapDouble(i, block, create); }
    }

    method MapSingle(i: nat, block: nat, create: bool) returns (b: nat)
      requires Valid() && Inv(St()) && i < inodes.Length && 7 <= block < 7 + ENTRIES
      modifies this, zmap, disk, inodes
      ensures Valid() && St() == (if create then CreateBlock(old(St()), i, block) else old(St()))
      ensures b == Bmap(St(), i, block)
    {
      SingleSteps(St(), i, block, create);
      if create { FillInodeZone(i, 7); }
      var z := inodes[i].zone[7];
      if z == 0 { return 0; }
      if create { FillEntry(z, block - 7); }
      return Entry(disk[z], block - 7);
    }

    method MapDouble(i: nat, block: nat, create: bool) returns (b: nat)
      requires Valid() && Inv(St()) && i < inodes.Length && 7 + ENTRIES <= block < MAX_BLOCKS
      modifies this, zmap, disk, inodes
      ensures Valid() && St() == (if create then CreateBlock(old(St()), i, block) else old(St()))
      ensures b == Bmap(St(), i, block)
    {
      var k := block - 7 - ENTRIES;
      DoubleSteps(St(), i, k, create);
      if create { FillInodeZone(i, 8); }
      var z := inodes[i].zone[8];
      if z == 0 { return 0; }
      if create { FillEntry(z, k / ENTRIES); }
      var t := Entry(disk[z], k / ENTRIES);
      if t == 0 { return 0; }
      if create { FillEntry(t, k % ENTRIES); }
      return Entry(disk[t], k % ENTRIES);
    }

    // ----- file_dev.c ---------------------------------------------------------------

    // the byte loop of file_write
    method StoreBytes(b: nat, off: nat, bytes: seq<Byte>)
      requires Valid() && b < zones && off + |bytes| <= BLOCK_SIZE
      modifies this, zmap, disk, inodes
      ensures Valid() && St() == PutBytes(old(St()), b, off, bytes)
    {
      ghost var block, blocks := disk[b], disk[..];
      var k := 0;
      while k < |bytes|
        invariant 0 <= k <= |bytes| && Valid()
        invariant disk[b] == block[..off] + bytes[..k] + block[off + k..]
        invariant St() == old(St()).(disk := blocks[b := disk[b]])
      {
        OneByteMore(block, off, bytes, k);
        disk[b] := disk[b][off + k := bytes[k]];
        k := k + 1;
        assert disk[..] == blocks[b := disk[b]];
      }
      assert bytes[..k] == bytes;
      assert block[..off] + bytes[..0] + block[off..] == block;
      assert disk[..] == blocks[b := disk[b]];
    }

    lemma OneByteMore(block: Block, off: nat, bytes: seq<Byte>, k: nat)
      requires |block| == BLOCK_SIZE && off + |bytes| <= BLOCK_SIZE && k < |bytes|
      ensures var now := block[..off] + bytes[..k] + block[off + k..];
              && |now| == |block|
              && now[off + k := bytes[k]] == block[..off] + bytes[..k + 1] + block[off + (k + 1)..]
    {}

    method GrowTo(i: nat, size: nat)
      requires Valid() && i < inodes.Length
      modifies this, zmap, disk, inodes
      ensures Valid() && St() == SetSize(old(St()), i, Max(Size(old(St()), i), size))
    {
      ghost var was := inodes[..];
      if size > inodes[i].size {
        inodes[i] := inodes[i].(size := size);
        assert inodes[..] == was[i := was[i].(size := size)];
      } else {
        assert was[i := was[i].(size := was[i].size)] == was;
      }
    }

    method PutChunk(i: nat, block: nat, pos: nat, bytes: seq<Byte>)
      requires Valid() && i < inodes.Length && block == Bmap(St(), i, pos / BLOCK_SIZE) < zones
      requires pos % BLOCK_SIZE + |bytes| <= BLOCK_SIZE
      modifies this, zmap, disk, inodes
      ensures Valid() && St() == WriteChunk(old(St()), i, pos, bytes)
    {
      StoreBytes(block, pos % BLOCK_SIZE, bytes);
      GrowTo(i, pos + |bytes|);
    }

    // one turn of the loop of file_write; 0 when no block was to be had
    method WriteChunkAt(i: nat, pos: nat, bytes: seq<Byte>, ghost turn: Turn) returns (c: nat)
      requires Valid() && Inv(St()) && InOneBlock(St(), i, pos, bytes) && IsTurn(turn, i)
      modifies this, zmap, disk, inodes
      ensures Valid() && Inv(St()) && Written(St(), c) == turn(old(St()), pos, bytes) && c <= |bytes|
    {
      WriteTurnStores(St(), i, pos, bytes);
      CreateBlockStep(St(), i, pos / BLOCK_SIZE);
      var block := MapBlock(i, pos / BLOCK_SIZE, true);
      BmapIsSlot(St(), i, pos / BLOCK_SIZE);
      if block == 0 { return 0; }
      PutChunk(i, block, pos, bytes);
      c := |bytes|;
    }

    // that turn after the first k bytes; n bytes are done after it
    method WriteOne(i: nat, start: nat, buf: seq<Byte>, k: nat, ghost turn: Turn) returns (n: nat)
      requires Valid() && Inv(St()) && i < inodes.Length && k < |buf| && start + |buf| <= MAX_SIZE && IsTurn(turn, i)
      modifies this, zmap, disk, inodes
      ensures Valid() && Inv(St()) && k <= n <= |buf|
      ensures WriteLoop(turn, old(St()), start + k, buf, k) ==
        if n == k then Written(St(), k) else WriteLoop(turn, St(), start + n, buf, n)
    {
      ghost var t := St();
      var pos := start + k;
      var c := pos % BLOCK_SIZE;
      c := BLOCK_SIZE - c;
      if c > |buf| - k { c := |buf| - k; }
      ChunkInOneBlock(t, i, pos, buf, k, c);
      var done := WriteChunkAt(i, pos, buf[k..k + c], turn);
      n := k + done;
      LoopTurn(turn, t, start, buf, k, c, n);
    }

    // the loop of file_write
    method WriteAll(i: nat, start: nat, buf: seq<Byte>, ghost turn: Turn) returns (k: nat)
      requires Valid() && Inv(St()) && i < inodes.Length && start + |buf| <= MAX_SIZE && IsTurn(turn, i)
      modifies this, zmap, disk, inodes
      ensures Valid() && Written(St(), k) == WriteLoop(turn, old(St()), start, buf, 0)
    {
      k := 0;
      ghost var all := WriteLoop(turn, St(), start, buf, 0);
      while k < |buf|
        invariant 0 <= k <= |buf| && Valid() && Inv(St()) && i < inodes.Length
        invariant WriteLoop(turn, St(), start + k, buf, k) == all
      {
        var n := WriteOne(i, start, buf, k, turn);
        if n == k { break; }
        k := n;
      }
    }

    /** file_write: with append the write starts at the size of the file, else at the file
        position. It stores a prefix of the buffer, all of it unless the device is full, and
        returns the number of bytes written, or -1 if there were none, and the new file
        position. A block number past the largest is a panic in the source. */
    method FileWrite(i: nat, filePos: nat, append: bool, buf: seq<Byte>) returns (ret: int, newPos: nat)
      requires Valid() && Inv(St()) && i < inodes.Length
      requires (if append then inodes[i].size else filePos) + |buf| <= MAX_SIZE
      modifies this, zmap, disk, inodes
      ensures Valid() && ret >= -1 && ret != 0
      ensures var start := if append then Size(old(St()), i) else filePos;
              var n := Max(ret, 0);
              && Written(St(), n) == WriteFile(old(St()), i, start, buf)
              && newPos == (if append then filePos else filePos + n)
              && n <= |buf| && Inv(St()) && (n < |buf| ==> Full(St()))
              && (Good(old(St())) ==>
                    Good(St()) && Becomes(old(St()), St(), i, Splice(Content(old(St()), i), start, buf[..n])))
    {
      var pos := if append then inodes[i].size else filePos;
      WriteFileStores(St(), i, pos, buf);
      if Good(St()) { WriteIsSplice(St(), i, pos, buf); }
      var k := WriteAll(i, pos, buf, TurnOf(i));
      ret := if k == 0 then -1 else k;
      newPos := if append then filePos else pos + k;
    }

    /** What file_write has stored, file_read delivers. */
    method WriteThenRead(i: nat, pos: nat, buf: seq<Byte>) returns (n: nat, back: seq<Byte>)
      requires Valid() && Inv(St()) && i < inodes.Length && pos + |buf| <= MAX_SIZE
      modifies this, zmap, disk, inodes
      ensures Valid() && Inv(St()) && n <= |buf| && (n < |buf| ==> Full(St()))
      ensures back == buf[..n]
    {
      ReadAfterWrite(St(), i, pos, buf);
      WriteFileStores(St(), i, pos, buf);
      var ret, end := FileWrite(i, pos, false, buf);
      n := Max(ret, 0);
      back, end := FileRead(i, pos, n);
    }

    /** file_read, for a position and count within the largest file: the bytes delivered are
        those of the file, a slice of its content where they lie within its size. */
    method FileRead(i: nat, filePos: nat, count: int) returns (buf: seq<Byte>, newPos: nat)
      requires Valid() && Inv(St()) && i < inodes.Length && filePos + count <= MAX_SIZE
      modifies this, zmap, disk, inodes
      ensures Valid() && St() == old(St())
      ensures buf == BytesAt(old(St()), i, filePos, Max(count, 0)) && newPos == filePos + Max(count, 0)
      ensures newPos <= Size(old(St()), i) ==> buf == Content(old(St()), i)[filePos..newPos]
      ensures forall k :: 0 <= k < |buf| ==> LiesOnDisk(disk[..], inodes[i].zone, filePos + k, buf[k])
    {
      if count > 0 { BytesLieOnDisk(St(), i, filePos, count); }
      if filePos + Max(count, 0) <= Size(St(), i) { ReadIsSlice(St(), i, filePos, Max(count, 0)); }
      buf, newPos := [], filePos;
      if count <= 0 { return; }
      while newPos < filePos + count
        invariant filePos <= newPos <= filePos + count && Valid() && St() == old(St())
        invariant buf == BytesAt(St(), i, filePos, newPos - filePos)
        decreases filePos + count - newPos
      {
        var chunk := ReadChunkAt(i, newPos, filePos + count - newPos);
        BytesAtThen(St(), i, filePos, newPos - filePos, |chunk|);
        buf := buf + chunk;
        newPos := newPos + |chunk|;
      }
    }

    // one turn of the loop of file_read
    method ReadChunkAt(i: nat, pos: nat, left: nat) returns (chunk: seq<Byte>)
      requires Valid() && Inv(St()) && i < inodes.Length && 0 < left && pos + left <= MAX_SIZE
      modifies this, zmap, disk, inodes
      ensures Valid() && St() == old(St())
      ensures 0 < |chunk| <= left && chunk == BytesAt(St(), i, pos, |chunk|)
    {
      BmapIsSlot(St(), i, pos / BLOCK_SIZE);
      var b := MapBlock(i, pos / BLOCK_SIZE, false);
      var off := pos % BLOCK_SIZE;
      var chars := Min(BLOCK_SIZE - off, left);
      ReadChunkBytes(St(), i, pos, chars);
      if b != 0 {
        chunk := disk[b][off..off + chars];
      } else {
        chunk := Zeros(chars);
      }
    }

    // ----- truncate.c ---------------------------------------------------------------

    method FreeOneEntry(b: nat, k: nat)
      requires Valid() && 0 < b < zones && k < ENTRIES
      modifies this, zmap, disk, inodes
      ensures Valid() && St() == FreeEntry(old(St()), b, k) && disk[..] == old(disk[..])
    {
      var e := Entry(disk[b], k);
      if e != 0 { ReleaseBlock(e); }
    }

    method FreeIndirect(b: nat)
      requires Valid() && b < zones
      modifies this, zmap, disk, inodes
      ensures Valid() && St() == FreeInd(old(St()), b) && disk[..] == old(disk[..])
    {
      if b == 0 { return; }
      var k := 0;
      while k < ENTRIES
        invariant 0 <= k <= ENTRIES && Valid() && disk[..] == old(disk[..])
        invariant FreeEntries(St(), b, k) == FreeEntries(old(St()), b, 0)
      {
        FreeOneEntry(b, k);
        k := k + 1;
      }
      ReleaseBlock(b);
    }

    method FreeOneTable(b: nat, j: nat)
      requires Valid() && 0 < b < zones && j < ENTRIES && Pointer(St(), b, j) < zones
      modifies this, zmap, disk, inodes
      ensures Valid() && St() == FreeTable(old(St()), b, j) && disk[..] == old(disk[..])
    {
      var e := Entry(disk[b], j);
      if e != 0 { FreeIndirect(e); }
    }

    method FreeDoubleIndirect(b: nat)
      requires Valid() && b < zones
      requires forall j :: 0 <= j < ENTRIES ==> Pointer(St(), b, j) < zones
      modifies this, zmap, disk, inodes
      ensures Valid() && St() == FreeDind(old(St()), b) && disk[..] == old(disk[..])
    {
      if b == 0 { return; }
      var j := 0;
      while j < ENTRIES
        invariant 0 <= j <= ENTRIES && Valid() && disk[..] == old(disk[..])
        invariant FreeTables(St(), b, j) == FreeTables(old(St()), b, 0)
      {
        assert Pointer(St(), b, j) == Pointer(old(St()), b, j);
        FreeOneTable(b, j);
        j := j + 1;
      }
      ReleaseBlock(b);
    }

    method FreeOneZone(i: nat, k: nat)
      requires Valid() && i < inodes.Length && k < 7
      modifies this, zmap, disk, inodes
      ensures Valid() && St() == FreeDirectZone(old(St()), i, k) && disk[..] == old(disk[..])
      ensures inodes[i] == old(inodes[i]).(zone := old(inodes[i]).zone[k := 0])
    {
      if inodes[i].zone[k] != 0 {
        ReleaseBlock(inodes[i].zone[k]);
        PutZone(i, k, 0);
      } else {
        assert inodes[i].zone[k := 0] == inodes[i].zone;
      }
    }

    method FreeDirectZones(i: nat)
      requires Valid() && i < inodes.Length
      modifies this, zmap, disk, inodes
      ensures Valid() && St() == FreeDirect(old(St()), i, 0) && disk[..] == old(disk[..])
      ensures inodes[i].zone[7] == old(inodes[i]).zone[7] && inodes[i].zone[8] == old(inodes[i]).zone[8]
    {
      var k := 0;
      while k < 7
        invariant 0 <= k <= 7 && Valid() && disk[..] == old(disk[..])
        invariant inodes[i].zone[7] == old(inodes[i]).zone[7] && inodes[i].zone[8] == old(inodes[i]).zone[8]
        invariant FreeDirect(St(), i, k) == FreeDirect(old(St()), i, 0)
      {
        FreeOneZone(i, k);
        k := k + 1;
      }
    }

    method ForgetInode(i: nat)
      requires Valid() && i < inodes.Length
      modifies this, zmap, disk, inodes
      ensures Valid() && St() == SetSize(SetZone(SetZone(old(St()), i, 7, 0), i, 8, 0), i, 0)
    {
      PutZone(i, 7, 0);
      PutZone(i, 8, 0);
      ghost var was := inodes[..];
      inodes[i] := inodes[i].(size := 0);
      assert inodes[..] == was[i := was[i].(size := 0)];
    }

    /** truncate: in a store where ownership holds it frees what the inode owns and nobody
        else holds, and empties the inode, without ever meeting a bit that is clear. */
    method TruncateFile(i: nat)
      requires Valid() && Inv(St()) && i < inodes.Length
      modifies this, zmap, disk, inodes
      ensures Valid() && Inv(St()) && St() == Truncate(old(St()), i)
      ensures old(inodes[i]).regular ==>
        Frees(old(St()), St(), i) && Lost(St()) == Lost(old(St())) + HeldBlocks(old(St()), i)
    {
      if !inodes[i].regular { return; }
      TruncateFrees(St(), i);
      TruncateLoses(St(), i);
      ZonesInRange(St(), i);
      FreeTree(i);
    }

    // the inode of a file is emptied
    method FreeTree(i: nat)
      requires Valid() && i < inodes.Length && inodes[i].regular && Zone(St(), i, 7) < zones && Zone(St(), i, 8) < zones
      requires forall j :: 0 <= j < ENTRIES ==> Pointer(St(), Zone(St(), i, 8), j) < zones
      modifies this, zmap, disk, inodes
      ensures Valid() && St() == Truncate(old(St()), i)
    {
      var single, double := inodes[i].zone[7], inodes[i].zone[8];
      FreeDirectZones(i);
      FreeIndirect(single);
      assert forall j :: 0 <= j < ENTRIES ==> Pointer(St(), double, j) == Pointer(old(St()), double, j);
      FreeDoubleIndirect(double);
      ForgetInode(i);
    }

    lemma ZonesInRange(s: Store, i: nat)
      requires Inv(s) && i < |s.inodes|
      ensures Zone(s, i, 7) < s.zones && Zone(s, i, 8) < s.zones
      ensures forall j :: 0 <= j < ENTRIES ==> Pointer(s, Zone(s, i, 8), j) < s.zones
    {
      assert IsSlot(s, Direct(i, 7)) && At(s, Direct(i, 7)) == Zone(s, i, 7);
      assert IsSlot(s, Direct(i, 8)) && At(s, Direct(i, 8)) == Zone(s, i, 8);
      forall j | 0 <= j < ENTRIES
        ensures Pointer(s, Zone(s, i, 8), j) < s.zones
      {
        assert IsSlot(s, Double(i, j)) && At(s, Double(i, j)) == Pointer(s, Zone(s, i, 8), j);
      }
    }
  }

  lemma {:induction false} FirstZeroAt(bits: seq<bool>, from: nat, k: nat)
    requires from <= k <= |bits| && (k < |bits| ==> !bits[k])
    requires forall j :: from <= j < k ==> bits[j]
    ensures FirstZero(bits, from) == k
    decreases k - from
  {
    if from < k { FirstZeroAt(bits, from + 1, k); }
  }
}
