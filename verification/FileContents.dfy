/** file_write and file_read against a flat string of bytes per file. */
module FileContents {
  import opened Basics
  import opened FileStore
  import opened FileOwnership
  import opened FileCreate

  // nothing but zeros lies past the end of a file
  ghost predicate ZeroTails(s: Store) {
    forall i :: 0 <= i < |s.inodes| ==>
      Size(s, i) <= MAX_SIZE && forall a :: Size(s, i) <= a < MAX_SIZE ==> ByteAt(s, i, a) == 0
  }

  ghost predicate Good(s: Store) { Inv(s) && ZeroTails(s) }

  // the file as its readers know it
  function Content(s: Store, i: nat): (c: seq<Byte>)
    ensures |c| == Size(s, i)
    ensures forall a :: 0 <= a < Size(s, i) ==> c[a] == ByteAt(s, i, a)
  {
    seq<Byte>(Size(s, i), a requires 0 <= a => ByteAt(s, i, a))
  }

  /** A byte of a file is the byte of its place in the block that the disk lists for it, zero where
      there is no block. */
  ghost predicate LiesOnDisk(disk: seq<Block>, zone: seq<nat>, a: nat, x: Byte)
    requires |zone| == 9
  {
    exists b: nat :: MapsTo(disk, zone, a / 1024, b) &&
      if b == 0 then x == 0 else b < |disk| && a % 1024 < |disk[b]| && x == disk[b][a % 1024]
  }

  lemma ByteLiesOnDisk(s: Store, i: nat, a: nat)
    requires Inv(s) && i < |s.inodes| && a < MAX_SIZE
    ensures LiesOnDisk(s.disk, s.inodes[i].zone, a, ByteAt(s, i, a))
  {
    BmapIsOnDisk(s, i, a / 1024);
    BmapIsSlot(s, i, a / 1024);
  }

  lemma BytesLieOnDisk(s: Store, i: nat, pos: nat, count: nat)
    requires Inv(s) && i < |s.inodes| && pos + count <= MAX_SIZE
    ensures forall k :: 0 <= k < count ==>
      LiesOnDisk(s.disk, s.inodes[i].zone, pos + k, BytesAt(s, i, pos, count)[k])
  {
    forall k | 0 <= k < count
      ensures LiesOnDisk(s.disk, s.inodes[i].zone, pos + k, BytesAt(s, i, pos, count)[k])
    {
      ByteLiesOnDisk(s, i, pos + k);
    }
  }

  // data written over a file at pos, with zeros in a gap
  function Splice(before: seq<Byte>, pos: nat, data: seq<Byte>): (r: seq<Byte>)
    ensures |r| == if data == [] then |before| else Max(|before|, pos + |data|)
    ensures forall a :: 0 <= a < |r| ==>
      r[a] == if pos <= a < pos + |data| then data[a - pos] else if a < |before| then before[a] else 0
  {
    if data == [] then before
    else if pos + |data| <= |before| then before[..pos] + data + before[pos + |data|..]
    else if pos <= |before| then before[..pos] + data
    else before + seq(pos - |before|, _ => 0) + data
  }

  // s' is s with bytes at pos of file i
  ghost predicate Wrote(s: Store, s': Store, i: nat, pos: nat, bytes: seq<Byte>) {
    && SameDevice(s, s') && |s'.inodes| == |s.inodes|
    && (forall i2 :: 0 <= i2 < |s.inodes| ==>
          && s'.inodes[i2].regular == s.inodes[i2].regular
          && Size(s', i2) == if i2 == i && bytes != [] then Max(Size(s, i2), pos + |bytes|) else Size(s, i2))
    && (forall i2, a :: 0 <= i2 < |s.inodes| && 0 <= a < MAX_SIZE ==>
          ByteAt(s', i2, a) == if i2 == i && pos <= a < pos + |bytes| then bytes[a - pos] else ByteAt(s, i2, a))
  }

  // the bytes lie in one block of the file
  ghost predicate InOneBlock(s: Store, i: nat, pos: nat, bytes: seq<Byte>) {
    i < |s.inodes| && pos % BLOCK_SIZE + |bytes| <= BLOCK_SIZE && pos + |bytes| <= MAX_SIZE && bytes != []
  }

  // the block written to holds no slot
  lemma DataHoldsNothing(s: Store, i: nat, block: nat, q: Slot)
    requires Inv(s) && i < |s.inodes| && block < MAX_BLOCKS && Bmap(s, i, block) != 0 && IsSlot(s, q) && !q.Direct?
    ensures Bmap(s, i, block) != Holder(s, q)
    ensures q.Leaf? ==> Bmap(s, i, block) != Zone(s, q.i, 8)
  {
    BmapIsSlot(s, i, block);
    assert IsSlot(s, Parent(q)) && At(s, Parent(q)) == Holder(s, q);
    if q.Leaf? { assert IsSlot(s, Direct(q.i, 8)) && At(s, Direct(q.i, 8)) == Zone(s, q.i, 8); }
  }

  // a slot whose holders keep their contents
  lemma HoldersKept(s: Store, s': Store, b: nat, q: Slot)
    requires |s'.disk| == |s.disk| && |s'.inodes| == |s.inodes|
    requires forall i :: 0 <= i < |s.inodes| ==> s'.inodes[i].zone == s.inodes[i].zone
    requires forall c :: 0 <= c < |s.disk| && c != b ==> s'.disk[c] == s.disk[c]
    requires !q.Direct? ==> b != Holder(s, q) && (q.Leaf? ==> b != Zone(s, q.i, 8))
    ensures At(s', q) == At(s, q)
  {}

  lemma WriteChunkSlots(s: Store, s': Store, i: nat, pos: nat, bytes: seq<Byte>)
    requires Inv(s) && InOneBlock(s, i, pos, bytes)
    requires Bmap(s, i, pos / BLOCK_SIZE) != 0 && s' == WriteChunk(s, i, pos, bytes)
    ensures forall q :: IsSlot(s, q) ==> At(s', q) == At(s, q)
  {
    var b := Bmap(s, i, pos / BLOCK_SIZE);
    forall q | IsSlot(s, q)
      ensures At(s', q) == At(s, q)
    {
      if !q.Direct? { DataHoldsNothing(s, i, pos / BLOCK_SIZE, q); }
      HoldersKept(s, s', b, q);
    }
  }

  lemma WriteChunkByte(s: Store, s': Store, i: nat, pos: nat, bytes: seq<Byte>, i2: nat, a: nat)
    requires Inv(s) && InOneBlock(s, i, pos, bytes)
    requires Bmap(s, i, pos / BLOCK_SIZE) != 0 && s' == WriteChunk(s, i, pos, bytes)
    requires forall q :: IsSlot(s, q) ==> At(s', q) == At(s, q)
    requires i2 < |s.inodes| && a < MAX_SIZE
    ensures ByteAt(s', i2, a) == if i2 == i && pos <= a < pos + |bytes| then bytes[a - pos] else ByteAt(s, i2, a)
  {
    var p, q := DataSlot(i, pos / BLOCK_SIZE), DataSlot(i2, a / BLOCK_SIZE);
    BmapIsSlot(s, i, pos / BLOCK_SIZE);
    BmapIsSlot(s, i2, a / BLOCK_SIZE);
    BmapIsSlot(s', i2, a / BLOCK_SIZE);
    if p == q {
      DataSlotInjective(i, pos / BLOCK_SIZE, i2, a / BLOCK_SIZE);
    }
  }

  lemma WriteChunkStep(s: Store, i: nat, pos: nat, bytes: seq<Byte>)
    requires Inv(s) && InOneBlock(s, i, pos, bytes)
    requires Bmap(s, i, pos / BLOCK_SIZE) != 0
    ensures var s' := WriteChunk(s, i, pos, bytes); Inv(s') && Lost(s') == Lost(s) && Wrote(s, s', i, pos, bytes)
  {
    var s' := WriteChunk(s, i, pos, bytes);
    WriteChunkSlots(s, s', i, pos, bytes);
    SameSlotsKeepInv(s, s');
    forall i2, a | 0 <= i2 < |s.inodes| && 0 <= a < MAX_SIZE
      ensures ByteAt(s', i2, a) == if i2 == i && pos <= a < pos + |bytes| then bytes[a - pos] else ByteAt(s, i2, a)
    {
      WriteChunkByte(s, s', i, pos, bytes, i2, a);
    }
  }

  lemma SameSlotsKeepInv(s: Store, s': Store)
    requires Inv(s) && Shape(s') && !s'.panicked && SameDevice(s, s')
    requires s'.zmap == s.zmap && |s'.inodes| == |s.inodes| && forall q :: IsSlot(s, q) ==> At(s', q) == At(s, q)
    ensures Inv(s') && Lost(s') == Lost(s)
  {
    SameSlotsLoseNone(s, s');
  }

  lemma WroteThen(s: Store, s1: Store, s2: Store, i: nat, pos: nat, x: seq<Byte>, y: seq<Byte>)
    requires Wrote(s, s1, i, pos, x) && Wrote(s1, s2, i, pos + |x|, y)
    ensures Wrote(s, s2, i, pos, x + y)
  {}

  lemma CreatesWrote(s: Store, s1: Store, s2: Store, p: Slot, i: nat, pos: nat, x: seq<Byte>)
    requires Inv(s) && Creates(s, s1, p) && Wrote(s1, s2, i, pos, x)
    ensures Wrote(s, s2, i, pos, x)
  {}

  lemma WroteNothing(s: Store, i: nat, pos: nat)
    ensures Wrote(s, s, i, pos, [])
  {}

  /** What file_write does: a prefix of buf is stored at pos, all of it unless the device is
      full, and no other byte of any file is touched. */
  ghost predicate StoresPrefix(s: Store, r: Written, i: nat, pos: nat, buf: seq<Byte>) {
    && Inv(r.s) && Lost(r.s) == Lost(s) && r.count <= |buf|
    && Wrote(s, r.s, i, pos, buf[..r.count])
    && (r.count < |buf| ==> Full(r.s))
  }

  // one turn stores its bytes, or finds the device full
  lemma WriteTurnStores(s: Store, i: nat, pos: nat, bytes: seq<Byte>)
    requires Inv(s) && InOneBlock(s, i, pos, bytes)
    ensures StoresPrefix(s, WriteTurn(s, i, pos, bytes), i, pos, bytes)
  {
    var block := pos / BLOCK_SIZE;
    var s1 := CreateBlock(s, i, block);
    CreateBlockStep(s, i, block);
    BmapIsSlot(s1, i, block);
    if Bmap(s1, i, block) == 0 {
      WroteNothing(s1, i, pos);
      CreatesWrote(s, s1, s1, DataSlot(i, block), i, pos, []);
      assert bytes[..0] == [];
    } else {
      WriteChunkStep(s1, i, pos, bytes);
      CreatesWrote(s, s1, WriteChunk(s1, i, pos, bytes), DataSlot(i, block), i, pos, bytes);
      assert bytes[..|bytes|] == bytes;
    }
  }

  // a turn after the first k bytes
  lemma WroteMore(s: Store, t: Store, u: Written, i: nat, pos: nat, buf: seq<Byte>, k: nat, c: nat)
    requires k + c <= |buf| && u.count <= c
    requires Wrote(s, t, i, pos, buf[..k]) && Wrote(t, u.s, i, pos + k, buf[k..k + c][..u.count])
    ensures Wrote(s, u.s, i, pos, buf[..k + u.count])
  {
    WroteThen(s, t, u.s, i, pos, buf[..k], buf[k..k + c][..u.count]);
    assert buf[..k] + buf[k..k + c][..u.count] == buf[..k + u.count];
  }

  // the bytes of a turn
  lemma ChunkInOneBlock(t: Store, i: nat, pos: nat, buf: seq<Byte>, k: nat, c: nat)
    requires i < |t.inodes| && k < |buf| && pos + |buf| - k <= MAX_SIZE && c == ChunkLength(pos, |buf| - k)
    ensures InOneBlock(t, i, pos, buf[k..k + c])
  {}

  // every turn stores its bytes, or finds the device full
  ghost predicate Stores(turn: Turn, i: nat) {
    forall t, pos, bytes {:trigger turn(t, pos, bytes)} :: Inv(t) && InOneBlock(t, i, pos, bytes) ==>
      StoresPrefix(t, turn(t, pos, bytes), i, pos, bytes) && turn(t, pos, bytes).count in {0, |bytes|}
  }

  // turn is what a turn does to file i; proofs about the loop need not look into it
  ghost predicate IsTurn(turn: Turn, i: nat) {
    forall s, at, bytes {:trigger WriteTurn(s, i, at, bytes)} :: turn(s, at, bytes) == WriteTurn(s, i, at, bytes)
  }

  lemma LoopTurn(turn: Turn, t: Store, start: nat, buf: seq<Byte>, k: nat, c: nat, n: nat)
    requires k < |buf| && c == ChunkLength(start + k, |buf| - k)
    requires var r := turn(t, start + k, buf[k..k + c]); r.count <= |buf| - k && n == k + r.count
    ensures var r := turn(t, start + k, buf[k..k + c]);
            WriteLoop(turn, t, start + k, buf, k) ==
              if n == k then Written(r.s, k) else WriteLoop(turn, r.s, start + n, buf, n)
  {}

  // what a turn leads to; n bytes are done after it
  lemma TurnStores(turn: Turn, t: Store, i: nat, start: nat, buf: seq<Byte>, k: nat)
    returns (r: Written, c: nat, n: nat)
    requires Stores(turn, i) && Inv(t) && i < |t.inodes| && k < |buf| && start + |buf| <= MAX_SIZE
    ensures n == k + r.count && k + c <= |buf| && StoresPrefix(t, r, i, start + k, buf[k..k + c])
    ensures n == k ==> Full(r.s)
    ensures WriteLoop(turn, t, start + k, buf, k) ==
      if n == k then Written(r.s, k) else WriteLoop(turn, r.s, start + n, buf, n)
  {
    c := ChunkLength(start + k, |buf| - k);
    ChunkInOneBlock(t, i, start + k, buf, k, c);
    r := turn(t, start + k, buf[k..k + c]);
    n := k + r.count;
    LoopTurn(turn, t, start, buf, k, c, n);
  }

  // a turn of a write from s on
  lemma WriteOn(turn: Turn, s: Store, t: Store, i: nat, start: nat, buf: seq<Byte>, k: nat) returns (u: Store, n: nat)
    requires Stores(turn, i) && Inv(t) && i < |t.inodes| && k < |buf| && start + |buf| <= MAX_SIZE
    requires Wrote(s, t, i, start, buf[..k])
    ensures Inv(u) && Lost(u) == Lost(t) && |u.inodes| == |t.inodes| && (n == k ==> Full(u))
    ensures k <= n <= |buf| && Wrote(s, u, i, start, buf[..n])
    ensures WriteLoop(turn, t, start + k, buf, k) ==
      if n == k then Written(u, k) else WriteLoop(turn, u, start + n, buf, n)
  {
    var r, c;
    r, c, n := TurnStores(turn, t, i, start, buf, k);
    WroteMore(s, t, r, i, start, buf, k, c);
    u := r.s;
  }

  lemma WriteLoopStores(turn: Turn, s: Store, i: nat, start: nat, buf: seq<Byte>)
    requires Stores(turn, i) && Inv(s) && i < |s.inodes| && start + |buf| <= MAX_SIZE
    ensures StoresPrefix(s, WriteLoop(turn, s, start, buf, 0), i, start, buf)
  {
    var t, k, full := s, 0, false;
    WroteNothing(s, i, start);
    assert buf[..0] == [];
    while k < |buf| && !full
      invariant Inv(t) && Lost(t) == Lost(s) && |t.inodes| == |s.inodes|
      invariant k <= |buf| && Wrote(s, t, i, start, buf[..k])
      invariant WriteLoop(turn, s, start, buf, 0) ==
        if full then Written(t, k) else WriteLoop(turn, t, start + k, buf, k)
      invariant full ==> Full(t)
      decreases |buf| - k, !full
    {
      var u, n := WriteOn(turn, s, t, i, start, buf, k);
      t, k, full := u, n, n == k;
    }
  }

  /** file_write stores a prefix of the buffer, keeps ownership and loses no block. */
  lemma WriteFileStores(s: Store, i: nat, pos: nat, buf: seq<Byte>)
    requires Inv(s) && i < |s.inodes| && pos + |buf| <= MAX_SIZE
    ensures StoresPrefix(s, WriteFile(s, i, pos, buf), i, pos, buf)
  {
    var turn := TurnOf(i);
    forall t, at, bytes | Inv(t) && InOneBlock(t, i, at, bytes)
      ensures StoresPrefix(t, turn(t, at, bytes), i, at, bytes) && turn(t, at, bytes).count in {0, |bytes|}
    {
      WriteTurnStores(t, i, at, bytes);
    }
    WriteLoopStores(turn, s, i, pos, buf);
  }

  // file i has become c, and the other files are as they were
  ghost predicate Becomes(s: Store, s': Store, i: nat, c: seq<Byte>) {
    && |s'.inodes| == |s.inodes|
    && forall i2 :: 0 <= i2 < |s.inodes| ==> Content(s', i2) == if i2 == i then c else Content(s, i2)
  }

  /** A write of n bytes turns the file into its old content with those n bytes spliced in at
      pos; bytes never written, in holes or past the old end, read as zero. Only a full device
      cuts the write short. */
  lemma WriteIsSplice(s: Store, i: nat, pos: nat, buf: seq<Byte>)
    requires Good(s) && i < |s.inodes| && pos + |buf| <= MAX_SIZE
    ensures var r := WriteFile(s, i, pos, buf);
            && Good(r.s) && Lost(r.s) == Lost(s) && (r.count < |buf| ==> Full(r.s))
            && Becomes(s, r.s, i, Splice(Content(s, i), pos, buf[..r.count]))
  {
    WriteFileStores(s, i, pos, buf);
    var r := WriteFile(s, i, pos, buf);
    var data := buf[..r.count];
    forall i2 | 0 <= i2 < |s.inodes|
      ensures Content(r.s, i2) == if i2 == i then Splice(Content(s, i), pos, data) else Content(s, i2)
    {
      SpliceBytes(s, r.s, i, pos, data, i2);
    }
  }

  lemma SpliceBytes(s: Store, s': Store, i: nat, pos: nat, data: seq<Byte>, i2: nat)
    requires Good(s) && i < |s.inodes| && i2 < |s.inodes| && pos + |data| <= MAX_SIZE && Wrote(s, s', i, pos, data)
    ensures Content(s', i2) == if i2 == i then Splice(Content(s, i), pos, data) else Content(s, i2)
  {
    var c := if i2 == i then Splice(Content(s, i), pos, data) else Content(s, i2);
    assert |c| == Size(s', i2);
    assert forall a :: 0 <= a < |c| ==> Content(s', i2)[a] == c[a];
  }

  /** The bytes file_read delivers: those of the file from pos on, zeros in holes and past the end. */
  function BytesAt(s: Store, i: nat, pos: nat, count: nat): (bytes: seq<Byte>)
    ensures |bytes| == count
    ensures forall k :: 0 <= k < count ==> bytes[k] == ByteAt(s, i, pos + k)
  {
    seq<Byte>(count, k requires 0 <= k => ByteAt(s, i, pos + k))
  }

  // one turn of the loop of file_read
  lemma ReadChunkBytes(s: Store, i: nat, pos: nat, c: nat)
    requires Inv(s) && i < |s.inodes| && pos % BLOCK_SIZE + c <= BLOCK_SIZE && pos + c <= MAX_SIZE
    ensures ReadChunk(s, i, pos, c) == BytesAt(s, i, pos, c)
  {
    forall k | 0 <= k < c
      ensures ReadChunk(s, i, pos, c)[k] == BytesAt(s, i, pos, c)[k]
    {
      BmapIsSlot(s, i, pos / BLOCK_SIZE);
      assert (pos + k) / BLOCK_SIZE == pos / BLOCK_SIZE && (pos + k) % BLOCK_SIZE == pos % BLOCK_SIZE + k;
    }
  }

  lemma BytesAtThen(s: Store, i: nat, pos: nat, a: nat, b: nat)
    ensures BytesAt(s, i, pos, a) + BytesAt(s, i, pos + a, b) == BytesAt(s, i, pos, a + b)
  {}

  lemma ReadIsSlice(s: Store, i: nat, pos: nat, count: nat)
    requires pos + count <= Size(s, i)
    ensures BytesAt(s, i, pos, count) == Content(s, i)[pos..pos + count]
  {}

  /** What was written is read back. */
  lemma ReadAfterWrite(s: Store, i: nat, pos: nat, buf: seq<Byte>)
    requires Inv(s) && i < |s.inodes| && pos + |buf| <= MAX_SIZE
    ensures var r := WriteFile(s, i, pos, buf); BytesAt(r.s, i, pos, r.count) == buf[..r.count]
  {
    WriteFileStores(s, i, pos, buf);
    var r := WriteFile(s, i, pos, buf);
    forall k | 0 <= k < r.count
      ensures BytesAt(r.s, i, pos, r.count)[k] == buf[..r.count][k]
    {
      assert ByteAt(r.s, i, pos + k) == buf[..r.count][pos + k - pos];
    }
  }
}
