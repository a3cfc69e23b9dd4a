/** The buffer cache as it runs: buffer heads linked in place into hash chains and the free
    ring. Its lookups and its recycling step are those of the protocol in module Getblk. */
module BufferCache {
  import opened BufferQueues
  import opened Getblk

  class Cache {
    const bufs: array<Buffer>
    const hash: array<int>
    const mix: (nat, nat) -> nat
    var freeList: int
    ghost var ring: seq<int>
    ghost var chains: seq<seq<int>>

    ghost function St(): Queues
      reads this, bufs, hash
    {
      Queues(bufs[..], hash[..], freeList, mix)
    }

    function Heads(): (hs: seq<Head>)
      reads bufs
      ensures |hs| == bufs.Length && forall b :: 0 <= b < bufs.Length ==> hs[b] == bufs[b].head
    {
      HeadsOf(bufs[..])
    }

    // all buffers indexed but `out`; NONE when none is out
    ghost predicate Valid(out: int)
      reads this, bufs, hash
    {
      WellFormed(St(), ring, chains, out) && bufs as object != hash as object
    }

    /** buffer_init: size buffers without a device, all on the ring in order. */
    constructor (size: nat, nrHash: nat, mix: (nat, nat) -> nat)
      requires size > 0 && nrHash > 0
      ensures Valid(NONE) && fresh(bufs) && fresh(hash) && bufs.Length == size && hash.Length == nrHash
      ensures this.mix == mix
      ensures ring == seq(size, k => k) && forall b :: 0 <= b < size ==> bufs[b].head == Head(0, 0, 0, false, false)
    {
      this.mix := mix;
      hash := new int[nrHash](_ => NONE);
      bufs := new Buffer[size](_ => Buffer(Head(0, 0, 0, false, false), NONE, NONE, 0, 0));
      freeList := 0;
      ring := seq(size, k => k);
      chains := seq(nrHash, _ => []);
      new;
      var h := 0;
      while h < size
        invariant 0 <= h <= size && freeList == 0
        invariant ring == seq(size, k => k) && chains == seq(nrHash, _ => [])
        invariant forall b :: 0 <= b < h ==> bufs[b] == Buffer(Head(0, 0, 0, false, false), NONE, NONE, b + 1, b - 1)
        invariant forall b :: 0 <= b < nrHash ==> hash[b] == NONE
      {
        bufs[h] := Buffer(Head(0, 0, 0, false, false), NONE, NONE, h + 1, h - 1);
        h := h + 1;
      }
      bufs[0] := bufs[0].(prevFree := size - 1);
      bufs[size - 1] := bufs[size - 1].(nextFree := 0);
      FreshLists(St(), ring, chains);
    }

    method SetLinks(b: int, buffer: Buffer)
      requires 0 <= b < bufs.Length
      modifies bufs
      ensures bufs[..] == old(bufs[..])[b := buffer]
    {
      bufs[b] := buffer;
    }

    // the buffer leaves its hash chain
    method UnlinkHash(b: int)
      requires hash.Length > 0 && 0 <= b < bufs.Length && bufs as object != hash as object
      modifies bufs, hash
      ensures St() == Unhash(old(St()), b)
    {
      ghost var q := St();
      var x, y := bufs[b].next, bufs[b].prev;
      var h := mix(bufs[b].head.dev, bufs[b].head.block) % hash.Length;
      if 0 <= x < bufs.Length { SetLinks(x, bufs[x].(prev := y)); }
      if 0 <= y < bufs.Length { SetLinks(y, bufs[y].(next := x)); }
      if hash[h] == b { hash[h] := x; }
      assert hash[..] == Unhash(q, b).hash;
    }

    // the buffer leaves the ring
    method UnlinkFree(b: int)
      requires 0 <= b < bufs.Length && bufs as object != hash as object
      modifies this`freeList, bufs
      ensures St() == Unring(old(St()), b)
    {
      var x, y := bufs[b].nextFree, bufs[b].prevFree;
      if 0 <= y < bufs.Length { SetLinks(y, bufs[y].(nextFree := x)); }
      if 0 <= x < bufs.Length { SetLinks(x, bufs[x].(prevFree := y)); }
      if freeList == b { freeList := x; }
    }

    method RemoveFromQueues(b: int)
      requires Valid(NONE) && 0 <= b < bufs.Length
      modifies this`freeList, this`ring, this`chains, bufs, hash
      ensures Valid(b) && St() == Remove(old(St()), b) && Heads() == old(Heads())
      ensures ring + [b] == MoveToEnd(old(ring), b, 0)
    {
      ghost var q := St();
      ghost var k, j := Positions(q, ring, chains, b);
      RemoveKeeps(q, ring, chains, k, j);
      MovesTo(ring, b, k, 0);
      ghost var ring', chains' := Without(ring, k), ChainsWithout(q, chains, b, j);
      UnlinkHash(b);
      UnlinkFree(b);
      ring, chains := ring', chains';
      SameHeadsOf(q.bufs, bufs[..]);
    }

    // the buffer becomes the last of the ring
    method LinkFree(b: int)
      requires 0 <= b < bufs.Length && 0 <= freeList < bufs.Length && bufs as object != hash as object
      modifies bufs
      ensures St() == Enring(old(St()), b)
    {
      SetLinks(b, bufs[b].(nextFree := freeList));
      SetLinks(b, bufs[b].(prevFree := bufs[freeList].prevFree));
      var last := bufs[freeList].prevFree;
      if 0 <= last < bufs.Length { SetLinks(last, bufs[last].(nextFree := b)); }
      SetLinks(freeList, bufs[freeList].(prevFree := b));
    }

    // a buffer with a device becomes the first of its hash chain
    method LinkHash(b: int)
      requires hash.Length > 0 && 0 <= b < bufs.Length && bufs as object != hash as object
      modifies bufs, hash
      ensures St() == Enhash(old(St()), b)
    {
      ghost var q := St();
      SetLinks(b, bufs[b].(prev := NONE));
      SetLinks(b, bufs[b].(next := NONE));
      if bufs[b].head.dev == 0 { return; }
      var h := mix(bufs[b].head.dev, bufs[b].head.block) % hash.Length;
      var first := hash[h];
      SetLinks(b, bufs[b].(next := first));
      hash[h] := b;
      if 0 <= first < bufs.Length { SetLinks(first, bufs[first].(prev := b)); }
      assert hash[..] == Enhash(q, b).hash;
    }

    method InsertIntoQueues(b: int)
      requires Valid(b) && 0 <= b < bufs.Length
      modifies this`freeList, this`ring, this`chains, bufs, hash
      ensures Valid(NONE) && 0 <= old(freeList) < bufs.Length && St() == Insert(old(St()), b) && Heads() == old(Heads())
      ensures ring == old(ring) + [b]
    {
      ghost var q := St();
      InsertKeeps(q, ring, chains, b);
      ghost var ring', chains' := ring + [b], ChainsWith(q, chains, b);
      LinkFree(b);
      LinkHash(b);
      ring, chains := ring', chains';
      SameHeadsOf(q.bufs, bufs[..]);
    }

    /** find_buffer walks one chain, and answers as a scan of all buffers would. */
    method FindBuffer(dev: nat, block: nat) returns (b: int)
      requires Valid(NONE)
      ensures b == NONE || (0 <= b < bufs.Length && dev != 0 && bufs[b].head.dev == dev && bufs[b].head.block == block)
      ensures b == NONE && dev != 0 ==> forall c :: 0 <= c < bufs.Length ==>
        !(bufs[c].head.dev == dev && bufs[c].head.block == block)
      ensures Unique(Heads()) ==> b == Find(Heads(), dev, block)
    {
      var h := mix(dev, block) % hash.Length;
      b := hash[h];
      ghost var chain := chains[h];
      ghost var k := 0;
      assert ChainOk(bufs[..], chain, hash[h]);
      while b != NONE
        invariant 0 <= k <= |chain| && b == ChainAt(chain, k)
        invariant forall j :: 0 <= j < k ==>
          0 <= chain[j] < bufs.Length && !(bufs[chain[j]].head.dev == dev && bufs[chain[j]].head.block == block)
        decreases |chain| - k
      {
        assert chain[k] in chain;
        if bufs[b].head.dev == dev && bufs[b].head.block == block { break; }
        b := bufs[b].next;
        k := k + 1;
      }
      if b == NONE && dev != 0 {
        forall c | 0 <= c < bufs.Length
          ensures !(bufs[c].head.dev == dev && bufs[c].head.block == block)
        {
          assert bufs[c].head.dev != 0 && Slot(St(), c) == h ==> c in chain;
        }
      }
    }

    /** getblk's choice of a buffer to recycle: one turn around the free ring. */
    method ScanFreeList() returns (best: int)
      requires Valid(NONE)
      ensures RingOf(Heads(), ring) && best == Scan(Heads(), ring, 0, NONE)
    {
      RingIsRing();
      ghost var heads := Heads();
      best := NONE;
      var tmp := freeList;
      ghost var k := 0;
      while true
        invariant 0 <= k < |ring| && tmp == ring[k] && (best == NONE || 0 <= best < bufs.Length)
        invariant Scan(heads, ring, k, best) == Scan(heads, ring, 0, NONE)
        decreases |ring| - k
      {
        RingLinks(bufs[..], ring, freeList, k);
        if bufs[tmp].head.count == 0 {
          if best == NONE || Badness(bufs[tmp].head) < Badness(bufs[best].head) {
            best := tmp;
            if Badness(bufs[tmp].head) == 0 { return; }
          }
        }
        tmp := bufs[tmp].nextFree;
        assert tmp == freeList <==> k + 1 == |ring|;
        if tmp == freeList { return; }
        k := k + 1;
      }
    }

    lemma RingIsRing()
      requires Valid(NONE)
      ensures RingOf(Heads(), ring) && |ring| > 0 && freeList == ring[0]
    {
      assert 0 in ring;
    }

    /** The last step of getblk: an unused buffer is taken off both indexes, given its new
        identity and put back, now at the end of the ring. */
    method RecycleBuffer(b: int, dev: nat, block: nat)
      requires Valid(NONE) && 0 <= b < bufs.Length
      modifies this`freeList, this`ring, this`chains, bufs, hash
      ensures Valid(NONE)
      ensures Heads() == old(Heads())[b := Head(dev, block, 1, false, old(bufs[b]).head.locked)]
      ensures ring == MoveToEnd(old(ring), b, 0)
    {
      TakeOff(b);
      PutBack(b, dev, block);
    }

    // off both indexes, as the only user's
    method TakeOff(b: int)
      requires Valid(NONE) && 0 <= b < bufs.Length
      modifies this`freeList, this`ring, this`chains, bufs, hash
      ensures Valid(b) && Heads() == old(Heads())[b := old(bufs[b]).head.(count := 1, dirty := false)]
      ensures ring + [b] == MoveToEnd(old(ring), b, 0)
    {
      SetHead(b, bufs[b].head.(count := 1, dirty := false), NONE);
      RemoveFromQueues(b);
    }

    // back, with a new identity
    method PutBack(b: int, dev: nat, block: nat)
      requires Valid(b) && 0 <= b < bufs.Length
      modifies this`freeList, this`ring, this`chains, bufs, hash
      ensures Valid(NONE) && Heads() == old(Heads())[b := old(bufs[b]).head.(dev := dev, block := block)]
      ensures ring == old(ring) + [b]
    {
      SetHead(b, bufs[b].head.(dev := dev, block := block), b);
      InsertIntoQueues(b);
    }

    // counts and flags may change at any time, the identity only off both indexes
    method SetHead(b: int, head: Head, ghost out: int)
      requires Valid(out) && 0 <= b < bufs.Length
      requires b != out ==> head.dev == bufs[b].head.dev && head.block == bufs[b].head.block
      modifies bufs
      ensures Valid(out) && Heads() == old(Heads())[b := head] && ring == old(ring)
    {
      HeadKeeps(St(), ring, chains, out, b, head);
      SetLinks(b, bufs[b].(head := head));
      assert Heads() == old(Heads())[b := head];
    }
  }

  // the links of buffer_init make one ring and no chain
  lemma FreshLists(q: Queues, ring: seq<int>, chains: seq<seq<int>>)
    requires |q.bufs| > 0 && |q.hash| > 0 && |chains| == |q.hash| && |ring| == |q.bufs| && q.freeList == 0
    requires forall k :: 0 <= k < |ring| ==> ring[k] == k
    requires forall h :: 0 <= h < |q.hash| ==> chains[h] == [] && q.hash[h] == NONE
    requires forall b :: 0 <= b < |q.bufs| ==>
               q.bufs[b] == Buffer(Head(0, 0, 0, false, false), NONE, NONE, Succ(|q.bufs|, b), Pred(|q.bufs|, b))
    ensures WellFormed(q, ring, chains, NONE)
  {
    LinksRing(q.bufs, ring, 0);
    forall b | 0 <= b < |q.bufs| ensures b in ring { assert ring[b] == b; }
  }

  lemma HeadKeeps(q: Queues, ring: seq<int>, chains: seq<seq<int>>, out: int, b: int, head: Head)
    requires WellFormed(q, ring, chains, out) && 0 <= b < |q.bufs|
    requires b != out ==> head.dev == q.bufs[b].head.dev && head.block == q.bufs[b].head.block
    ensures WellFormed(q.(bufs := q.bufs[b := q.bufs[b].(head := head)]), ring, chains, out)
  {
    var r := q.(bufs := q.bufs[b := q.bufs[b].(head := head)]);
    RingPartKept(q, r, ring, out);
    forall h | 0 <= h < |q.hash|
      ensures ChainOk(r.bufs, chains[h], r.hash[h])
    {
      ChainKept(q.bufs, r.bufs, chains[h], q.hash[h]);
    }
    assert forall c :: 0 <= c < |q.bufs| && c != out ==> Slot(r, c) == Slot(q, c);
  }

  function HeadsOf(bufs: seq<Buffer>): (hs: seq<Head>)
    ensures |hs| == |bufs| && forall b :: 0 <= b < |bufs| ==> hs[b] == bufs[b].head
  {
    seq(|bufs|, b requires 0 <= b < |bufs| => bufs[b].head)
  }

  lemma SameHeadsOf(bufs: seq<Buffer>, bufs': seq<Buffer>)
    requires |bufs'| == |bufs| && forall b :: 0 <= b < |bufs| ==> bufs'[b].head == bufs[b].head
    ensures HeadsOf(bufs') == HeadsOf(bufs)
  {}

  /** A recycled buffer becomes the last of the ring, the others keep their order. */
  lemma {:induction false} MovesTo(ring: seq<int>, b: int, k: nat, from: nat)
    requires Distinct(ring) && from <= k < |ring| && ring[k] == b
    ensures MoveToEnd(ring, b, from) == ring[..k] + ring[k + 1..] + [b]
    ensures MoveToEnd(ring, b, from) == Without(ring, k) + [b]
    ensures multiset(Without(ring, k)) == multiset(ring) - multiset{b}
    decreases k - from
  {
    if from < k { MovesTo(ring, b, k, from + 1); }
    assert ring == ring[..k] + [b] + ring[k + 1..];
  }
}
