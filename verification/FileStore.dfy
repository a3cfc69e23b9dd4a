/** Zones, block trees and file input/output: the value model of fs/bitmap.c, of _bmap in
    fs/inode.c, of fs/file_dev.c and of fs/truncate.c, for one device. */
module FileStore {
  import opened Basics

  const BLOCK_SIZE := 1024
  const ENTRIES := 512                                       // zone numbers in a block
  const MAX_BLOCKS := 7 + ENTRIES + ENTRIES * ENTRIES
  const MAP_BITS := 8192                                     // zones per bitmap block
  const MAX_SIZE := MAX_BLOCKS * BLOCK_SIZE

  type Block = seq<Byte>

  datatype Inode = Inode(zone: seq<nat>, size: nat, regular: bool)

  /** zmap is s_zmap, one bit a zone; disk is what the buffer cache and the disk together hold;
      busy are the blocks whose buffers some other task holds, pinned those of them on which
      free_block has left a reference that nobody gives back. */
  datatype Store =
    Store(first: nat, zones: nat, zmap: seq<bool>, disk: seq<Block>, inodes: seq<Inode>, busy: set<nat>,
          pinned: set<nat>, panicked: bool)

  ghost predicate Shape(s: Store) {
    && 1 <= s.first <= s.zones <= 0xffff
    && s.zones - s.first < |s.zmap| && |s.zmap| % MAP_BITS == 0 && |s.zmap| <= 8 * MAP_BITS
    && |s.disk| == s.zones
    && (forall b :: 0 <= b < s.zones ==> |s.disk[b]| == BLOCK_SIZE)
    && (forall i :: 0 <= i < |s.inodes| ==> |s.inodes[i].zone| == 9)
  }

  function ZeroBlock(): (b: Block)
    ensures |b| == BLOCK_SIZE && forall k :: 0 <= k < BLOCK_SIZE ==> b[k] == 0
  {
    seq(BLOCK_SIZE, _ => 0)
  }

  // ----- little-endian zone numbers -------------------------------------------------

  function Entry(b: Block, k: nat): nat {
    if 2 * k + 1 < |b| then b[2 * k] as int + 256 * b[2 * k + 1] as int else 0
  }

  function SetEntry(b: Block, k: nat, n: nat): (r: Block)
    ensures |r| == |b|
  {
    if 2 * k + 1 < |b| then b[2 * k := n % 256][2 * k + 1 := n / 256 % 256] else b
  }

  lemma EntryOfSet(b: Block, k: nat, n: nat, j: nat)
    requires |b| == BLOCK_SIZE && k < ENTRIES && n <= 0xffff
    ensures Entry(SetEntry(b, k, n), j) == if j == k then n else Entry(b, j)
  {}

  // ----- zone bitmap ----------------------------------------------------------------

  // find_first_zero over all bitmap blocks from bit k on: the lowest clear bit, or the length
  function FirstZero(zmap: seq<bool>, k: nat): (j: nat)
    requires k <= |zmap|
    ensures k <= j <= |zmap|
    decreases |zmap| - k
  {
    if k == |zmap| || !zmap[k] then k else FirstZero(zmap, k + 1)
  }

  lemma FirstZeroIsFirst(zmap: seq<bool>, k: nat)
    requires k <= |zmap|
    ensures FirstZero(zmap, k) < |zmap| ==> !zmap[FirstZero(zmap, k)]
    ensures forall i :: k <= i < FirstZero(zmap, k) ==> zmap[i]
    decreases |zmap| - k
  {}

  // the zone new_block would return, or 0
  function FreeZone(s: Store): nat {
    var j := FirstZero(s.zmap, 0);
    if j == |s.zmap| || j + s.first == 0 || j + s.first - 1 >= s.zones then 0 else j + s.first - 1
  }

  // the store new_block leaves: the bit is set even when the zone does not exist
  function TakeZone(s: Store): (r: Store)
    ensures Shape(s) ==> Shape(r)
  {
    var j := FirstZero(s.zmap, 0);
    if j == |s.zmap| then s
    else
      var s1 := s.(zmap := s.zmap[j := true]);
      var b := FreeZone(s);
      if b == 0 then s1
      else if b in s.busy then s1.(panicked := true)
      else if b < |s.disk| then s1.(disk := s.disk[b := ZeroBlock()]) else s1
  }

  function FreeBlock(s: Store, b: nat): (r: Store)
    ensures Shape(s) ==> Shape(r)
  {
    if b < s.first || b >= s.zones then s.(panicked := true)
    else if b in s.busy then s.(pinned := s.pinned + {b})
    else
      var k := b - s.first + 1;
      if k >= |s.zmap| || !s.zmap[k] then s.(panicked := true)
      else s.(zmap := s.zmap[k := false])
  }

  /** new_block: unless all zones are in use, the lowest free one gets its bit, and nothing else
      changes but the bytes of its block, which become zero. */
  lemma NewBlockTakes(s: Store)
    requires Shape(s) && s.zmap[0]
    ensures FreeZone(s) == 0 <==> forall k :: 1 <= k <= s.zones - s.first ==> s.zmap[k]
    ensures var b, r := FreeZone(s), TakeZone(s);
            b != 0 ==>
              var k := b - s.first + 1;
              && 1 <= k < |s.zmap| && b < s.zones && !s.zmap[k] && (forall j :: 0 <= j < k ==> s.zmap[j])
              && r.zmap == s.zmap[k := true] && r.inodes == s.inodes && r.busy == s.busy && r.pinned == s.pinned
              && (b in s.busy ==> r.panicked && r.disk == s.disk)
              && (b !in s.busy ==> r.panicked == s.panicked && r.disk == s.disk[b := seq(1024, _ => 0)])
  {
    FirstZeroIsFirst(s.zmap, 0);
  }

  // ----- block trees ----------------------------------------------------------------

  function Zone(s: Store, i: nat, k: nat): nat {
    if i < |s.inodes| && k < |s.inodes[i].zone| then s.inodes[i].zone[k] else 0
  }

  function SetZone(s: Store, i: nat, k: nat, n: nat): (r: Store)
    ensures Shape(s) ==> Shape(r)
  {
    if i < |s.inodes| && k < |s.inodes[i].zone|
    then s.(inodes := s.inodes[i := s.inodes[i].(zone := s.inodes[i].zone[k := n])])
    else s
  }

  // entry j of indirect block b, 0 if there is no such block
  function Pointer(s: Store, b: nat, j: nat): nat {
    if b == 0 || b >= |s.disk| then 0 else Entry(s.disk[b], j)
  }

  function SetPointer(s: Store, b: nat, j: nat, n: nat): (r: Store)
    ensures Shape(s) ==> Shape(r)
  {
    if b == 0 || b >= |s.disk| then s else s.(disk := s.disk[b := SetEntry(s.disk[b], j, n)])
  }

  // bmap
  function Bmap(s: Store, i: nat, block: nat): nat {
    if block < 7 then Zone(s, i, block)
    else if block - 7 < ENTRIES then Pointer(s, Zone(s, i, 7), block - 7)
    else
      var k := block - 7 - ENTRIES;
      Pointer(s, Pointer(s, Zone(s, i, 8), k / ENTRIES), k % ENTRIES)
  }

  // give zone slot k of the inode a block if it has none
  function FillZone(s: Store, i: nat, k: nat): (r: Store)
    ensures Shape(s) ==> Shape(r)
  {
    if Zone(s, i, k) != 0 then s
    else if FreeZone(s) == 0 then TakeZone(s)
    else SetZone(TakeZone(s), i, k, FreeZone(s))
  }

  // give entry j of indirect block b a block if it has none
  function FillPointer(s: Store, b: nat, j: nat): (r: Store)
    ensures Shape(s) ==> Shape(r)
  {
    if Pointer(s, b, j) != 0 then s
    else if FreeZone(s) == 0 then TakeZone(s)
    else SetPointer(TakeZone(s), b, j, FreeZone(s))
  }

  // create_block below the double indirect block, for the k-th block there
  function CreateLeaf(s: Store, i: nat, k: nat): (r: Store)
    ensures Shape(s) ==> Shape(r)
  {
    if Zone(s, i, 8) == 0 then s
    else
      var s1 := FillPointer(s, Zone(s, i, 8), k / ENTRIES);
      var b := Pointer(s1, Zone(s1, i, 8), k / ENTRIES);
      if b == 0 then s1 else FillPointer(s1, b, k % ENTRIES)
  }

  // create_block; its value is Bmap in the store it leaves
  function CreateBlock(s: Store, i: nat, block: nat): (r: Store)
    ensures Shape(s) ==> Shape(r)
  {
    if block >= MAX_BLOCKS then s.(panicked := true)
    else if block < 7 then FillZone(s, i, block)
    else if block - 7 < ENTRIES then
      var s1 := FillZone(s, i, 7);
      if Zone(s1, i, 7) == 0 then s1 else FillPointer(s1, Zone(s1, i, 7), block - 7)
    else CreateLeaf(FillZone(s, i, 8), i, block - 7 - ENTRIES)
  }

  // ----- reading and writing --------------------------------------------------------

  // the byte at p of file i; a hole is zero
  function ByteAt(s: Store, i: nat, p: nat): Byte {
    var b := Bmap(s, i, p / BLOCK_SIZE);
    if b == 0 || b >= |s.disk| || p % BLOCK_SIZE >= |s.disk[b]| then 0 else s.disk[b][p % BLOCK_SIZE]
  }

  function PutBytes(s: Store, b: nat, off: nat, bytes: seq<Byte>): (r: Store)
    ensures Shape(s) ==> Shape(r)
  {
    if b < |s.disk| && off + |bytes| <= |s.disk[b]|
    then s.(disk := s.disk[b := s.disk[b][..off] + bytes + s.disk[b][off + |bytes|..]])
    else s
  }

  function SetSize(s: Store, i: nat, size: nat): (r: Store)
    ensures Shape(s) ==> Shape(r)
  {
    if i < |s.inodes| then s.(inodes := s.inodes[i := s.inodes[i].(size := size)]) else s
  }

  function Size(s: Store, i: nat): nat { if i < |s.inodes| then s.inodes[i].size else 0 }

  datatype Written = Written(s: Store, count: nat)

  // the rest of a turn of the loop of file_write, when the block was created
  function WriteChunk(s: Store, i: nat, pos: nat, bytes: seq<Byte>): (r: Store)
    ensures Shape(s) ==> Shape(r)
  {
    var s1 := PutBytes(s, Bmap(s, i, pos / BLOCK_SIZE), pos % BLOCK_SIZE, bytes);
    SetSize(s1, i, Max(Size(s1, i), pos + |bytes|))
  }

  // how far a turn goes: to the end of the block, or of what is left
  function ChunkLength(pos: nat, left: nat): (c: nat)
    ensures c <= left && pos % BLOCK_SIZE + c <= BLOCK_SIZE && (left > 0 ==> c > 0)
  {
    Min(BLOCK_SIZE - pos % BLOCK_SIZE, left)
  }

  // a turn of the loop of file_write; its count is 0 when no block was to be had
  function WriteTurn(s: Store, i: nat, pos: nat, bytes: seq<Byte>): (r: Written)
    ensures r.count == 0 || r.count == |bytes|
  {
    var s1 := CreateBlock(s, i, pos / BLOCK_SIZE);
    if Bmap(s1, i, pos / BLOCK_SIZE) == 0 then Written(s1, 0) else Written(WriteChunk(s1, i, pos, bytes), |bytes|)
  }

  type Turn = (Store, nat, seq<Byte>) -> Written

  function TurnOf(i: nat): Turn { (s: Store, pos: nat, bytes: seq<Byte>) => WriteTurn(s, i, pos, bytes) }

  // the loop of file_write from byte k of buf and position pos on, up to a turn that stores
  // nothing; the count includes those k
  function WriteLoop(turn: Turn, s: Store, pos: nat, buf: seq<Byte>, k: nat): (r: Written)
    ensures k <= |buf| ==> k <= r.count <= |buf|
    decreases |buf| - k
  {
    if k >= |buf| then Written(s, k)
    else
      var u := turn(s, pos, buf[k..k + ChunkLength(pos, |buf| - k)]);
      if u.count == 0 || u.count > |buf| - k then Written(u.s, k)
      else WriteLoop(turn, u.s, pos + u.count, buf, k + u.count)
  }

  // file_write at pos: the store it leaves and how many bytes it wrote
  function WriteFile(s: Store, i: nat, pos: nat, buf: seq<Byte>): (r: Written)
    ensures r.count <= |buf|
  {
    WriteLoop(TurnOf(i), s, pos, buf, 0)
  }

  function Zeros(n: nat): (z: seq<Byte>)
    ensures |z| == n && forall k :: 0 <= k < n ==> z[k] == 0
  {
    seq(n, _ => 0)
  }

  // one turn of the loop of file_read
  function ReadChunk(s: Store, i: nat, pos: nat, c: nat): (bytes: seq<Byte>)
    ensures |bytes| == c
  {
    var b := Bmap(s, i, pos / BLOCK_SIZE);
    var off := pos % BLOCK_SIZE;
    if b != 0 && b < |s.disk| && off + c <= |s.disk[b]| then s.disk[b][off..off + c] else Zeros(c)
  }

  // ----- truncation -----------------------------------------------------------------

  // one turn of the loop of free_ind
  function FreeEntry(s: Store, b: nat, k: nat): (r: Store)
    ensures Shape(s) ==> Shape(r)
  {
    if Pointer(s, b, k) != 0 then FreeBlock(s, Pointer(s, b, k)) else s
  }

  // the loop of free_ind
  function FreeEntries(s: Store, b: nat, k: nat): (r: Store)
    ensures Shape(s) ==> Shape(r)
    decreases ENTRIES - k
  {
    if k >= ENTRIES then s
    else FreeEntries(FreeEntry(s, b, k), b, k + 1)
  }

  function FreeInd(s: Store, b: nat): (r: Store)
    ensures Shape(s) ==> Shape(r)
  {
    if b == 0 then s else FreeBlock(FreeEntries(s, b, 0), b)
  }

  // one turn of the loop of free_dind
  function FreeTable(s: Store, b: nat, j: nat): (r: Store)
    ensures Shape(s) ==> Shape(r)
  {
    if Pointer(s, b, j) != 0 then FreeInd(s, Pointer(s, b, j)) else s
  }

  // the loop of free_dind
  function FreeTables(s: Store, b: nat, j: nat): (r: Store)
    ensures Shape(s) ==> Shape(r)
    decreases ENTRIES - j
  {
    if j >= ENTRIES then s
    else FreeTables(FreeTable(s, b, j), b, j + 1)
  }

  function FreeDind(s: Store, b: nat): (r: Store)
    ensures Shape(s) ==> Shape(r)
  {
    if b == 0 then s else FreeBlock(FreeTables(s, b, 0), b)
  }

  // one turn of the loop of truncate over direct zones
  function FreeDirectZone(s: Store, i: nat, k: nat): (r: Store)
    ensures Shape(s) ==> Shape(r)
  {
    if Zone(s, i, k) != 0 then SetZone(FreeBlock(s, Zone(s, i, k)), i, k, 0) else s
  }

  // the loop of truncate over direct zones
  function FreeDirect(s: Store, i: nat, k: nat): (r: Store)
    ensures Shape(s) ==> Shape(r)
    decreases 7 - k
  {
    if k >= 7 then s
    else FreeDirect(FreeDirectZone(s, i, k), i, k + 1)
  }

  function Truncate(s: Store, i: nat): (r: Store)
    ensures Shape(s) ==> Shape(r)
  {
    if i >= |s.inodes| || !s.inodes[i].regular then s
    else
      var s1 := FreeDirect(s, i, 0);
      var s2 := FreeDind(FreeInd(s1, Zone(s1, i, 7)), Zone(s1, i, 8));
      SetSize(SetZone(SetZone(s2, i, 7, 0), i, 8, 0), i, 0)
  }
}
