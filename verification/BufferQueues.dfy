/** The two indexes over the buffer heads of fs/buffer.c: the hash chains and the circular free
    list, with the relinking done by remove_from_queues and insert_into_queues. Buffers are
    numbered; NONE is the null pointer. */
module BufferQueues {
  const NONE := -1

  /** What a buffer head says about its block and its use. */
  datatype Head = Head(dev: nat, block: nat, count: nat, dirty: bool, locked: bool)

  datatype Buffer = Buffer(head: Head, next: int, prev: int, nextFree: int, prevFree: int)

  /** mix is the dev^block of _hashfn; nothing below depends on which function it is. */
  datatype Queues = Queues(bufs: seq<Buffer>, hash: seq<int>, freeList: int, mix: (nat, nat) -> nat)

  // _hashfn, for the identity of buffer b
  function Slot(q: Queues, b: int): nat
    requires |q.hash| > 0 && 0 <= b < |q.bufs|
  {
    SlotOf(q, q.bufs[b].head.dev, q.bufs[b].head.block)
  }

  function SlotOf(q: Queues, dev: nat, block: nat): (h: nat)
    requires |q.hash| > 0
    ensures h < |q.hash|
  {
    q.mix(dev, block) % |q.hash|
  }

  // ----- well-formedness ------------------------------------------------------------

  ghost predicate Distinct(s: seq<int>) { forall j, k :: 0 <= j < k < |s| ==> s[j] != s[k] }

  ghost predicate Indices(s: seq<int>, n: nat) { forall k :: 0 <= k < |s| ==> 0 <= s[k] < n }

  // ring is the circular list that starts at head
  ghost predicate RingOk(bufs: seq<Buffer>, ring: seq<int>, head: int) {
    && Indices(ring, |bufs|) && Distinct(ring)
    && (|ring| > 0 ==>
          && head == ring[0]
          && bufs[ring[|ring| - 1]].nextFree == ring[0]
          && bufs[ring[0]].prevFree == ring[|ring| - 1])
    && (forall k {:trigger bufs[ring[k]].nextFree} :: 0 <= k < |ring| - 1 ==> bufs[ring[k]].nextFree == ring[k + 1])
    && (forall k {:trigger bufs[ring[k]].prevFree} :: 0 < k < |ring| ==> bufs[ring[k]].prevFree == ring[k - 1])
  }

  // chain is the doubly linked list that starts at head
  ghost predicate ChainOk(bufs: seq<Buffer>, chain: seq<int>, head: int) {
    && Indices(chain, |bufs|) && Distinct(chain)
    && head == (if chain == [] then NONE else chain[0])
    && (forall k {:trigger bufs[chain[k]].next} :: 0 <= k < |chain| ==>
        bufs[chain[k]].next == if k + 1 < |chain| then chain[k + 1] else NONE)
    && (forall k {:trigger bufs[chain[k]].prev} :: 0 <= k < |chain| ==>
        bufs[chain[k]].prev == if k > 0 then chain[k - 1] else NONE)
  }

  // every buffer but `out` is on the ring; a lone buffer taken off it keeps pointing at itself
  ghost predicate RingPart(q: Queues, ring: seq<int>, out: int) {
    && |q.bufs| > 0
    && RingOk(q.bufs, ring, q.freeList)
    && (forall b :: 0 <= b < |q.bufs| ==> (b in ring <==> b != out))
    && (ring == [] ==>
        0 <= out < |q.bufs| && q.freeList == out && q.bufs[out].nextFree == out && q.bufs[out].prevFree == out)
  }

  // every buffer but `out` is on the chain of its own hash iff it has a device
  ghost predicate ChainPart(q: Queues, chains: seq<seq<int>>, out: int) {
    && |q.hash| > 0 && |chains| == |q.hash|
    && (forall h :: 0 <= h < |q.hash| ==> ChainOk(q.bufs, chains[h], q.hash[h]))
    && (forall b, h :: 0 <= b < |q.bufs| && 0 <= h < |q.hash| ==>
          (b in chains[h] <==> b != out && q.bufs[b].head.dev != 0 && Slot(q, b) == h))
    && (forall b :: 0 <= b < |q.bufs| && b != out && q.bufs[b].head.dev == 0 ==>
        q.bufs[b].next == NONE && q.bufs[b].prev == NONE)
  }

  ghost predicate WellFormed(q: Queues, ring: seq<int>, chains: seq<seq<int>>, out: int) {
    RingPart(q, ring, out) && ChainPart(q, chains, out)
  }

  // ----- relinking ------------------------------------------------------------------

  function SetNext(bufs: seq<Buffer>, b: int, x: int): (r: seq<Buffer>)
    ensures |r| == |bufs|
  {
    if 0 <= b < |bufs| then bufs[b := bufs[b].(next := x)] else bufs
  }

  function SetPrev(bufs: seq<Buffer>, b: int, x: int): (r: seq<Buffer>)
    ensures |r| == |bufs|
  {
    if 0 <= b < |bufs| then bufs[b := bufs[b].(prev := x)] else bufs
  }

  function SetNextFree(bufs: seq<Buffer>, b: int, x: int): (r: seq<Buffer>)
    ensures |r| == |bufs|
  {
    if 0 <= b < |bufs| then bufs[b := bufs[b].(nextFree := x)] else bufs
  }

  function SetPrevFree(bufs: seq<Buffer>, b: int, x: int): (r: seq<Buffer>)
    ensures |r| == |bufs|
  {
    if 0 <= b < |bufs| then bufs[b := bufs[b].(prevFree := x)] else bufs
  }

  // the hash half of remove_from_queues
  function Unhash(q: Queues, b: int): (r: Queues)
    requires |q.hash| > 0 && 0 <= b < |q.bufs|
    ensures r.mix == q.mix && |r.bufs| == |q.bufs| && |r.hash| == |q.hash| && r.freeList == q.freeList
  {
    var x, y, h := q.bufs[b].next, q.bufs[b].prev, Slot(q, b);
    q.(bufs := SetNext(SetPrev(q.bufs, x, y), y, x), hash := if q.hash[h] == b then q.hash[h := x] else q.hash)
  }

  // the free-list half
  function Unring(q: Queues, b: int): (r: Queues)
    requires 0 <= b < |q.bufs|
    ensures r.mix == q.mix && |r.bufs| == |q.bufs| && r.hash == q.hash
  {
    var x, y := q.bufs[b].nextFree, q.bufs[b].prevFree;
    q.(bufs := SetPrevFree(SetNextFree(q.bufs, y, x), x, y), freeList := if q.freeList == b then x else q.freeList)
  }

  function Remove(q: Queues, b: int): (r: Queues)
    requires |q.hash| > 0 && 0 <= b < |q.bufs|
    ensures r.mix == q.mix && |r.bufs| == |q.bufs| && |r.hash| == |q.hash|
  {
    Unring(Unhash(q, b), b)
  }

  // the free-list half of insert_into_queues
  function Enring(q: Queues, b: int): (r: Queues)
    requires 0 <= b < |q.bufs| && 0 <= q.freeList < |q.bufs|
    ensures r.mix == q.mix && |r.bufs| == |q.bufs| && r.hash == q.hash && r.freeList == q.freeList
  {
    var f := q.freeList;
    var s1 := SetNextFree(q.bufs, b, f);
    var s2 := SetPrevFree(s1, b, s1[f].prevFree);
    var s3 := SetNextFree(s2, s2[f].prevFree, b);
    q.(bufs := SetPrevFree(s3, f, b))
  }

  // the hash half; the source stores through b_next even when it is null, here that store is skipped
  function Enhash(q: Queues, b: int): (r: Queues)
    requires |q.hash| > 0 && 0 <= b < |q.bufs|
    ensures r.mix == q.mix && |r.bufs| == |q.bufs| && |r.hash| == |q.hash| && r.freeList == q.freeList
  {
    var s1 := SetNext(SetPrev(q.bufs, b, NONE), b, NONE);
    if q.bufs[b].head.dev == 0 then q.(bufs := s1)
    else
      var h := Slot(q, b);
      q.(bufs := SetPrev(SetNext(s1, b, q.hash[h]), q.hash[h], b), hash := q.hash[h := b])
  }

  function Insert(q: Queues, b: int): (r: Queues)
    requires |q.hash| > 0 && 0 <= b < |q.bufs| && 0 <= q.freeList < |q.bufs|
    ensures r.mix == q.mix && |r.bufs| == |q.bufs| && |r.hash| == |q.hash|
  {
    Enhash(Enring(q, b), b)
  }

  // ----- what relinking does to the lists -------------------------------------------

  function Without(s: seq<int>, k: nat): seq<int>
    requires k < |s|
  {
    s[..k] + s[k + 1..]
  }

  lemma WithoutElements(s: seq<int>, k: nat)
    requires k < |s| && Distinct(s)
    ensures Distinct(Without(s, k)) && forall x :: x in Without(s, k) <==> x in s && x != s[k]
  {
    var w := Without(s, k);
    forall x ensures x in w <==> x in s && x != s[k] {
      if x in s && x != s[k] {
        var j :| 0 <= j < |s| && s[j] == x;
        assert w[if j < k then j else j - 1] == x;
      }
      if x in w {
        var j :| 0 <= j < |w| && w[j] == x;
        assert x == s[if j < k then j else j + 1];
      }
    }
  }

  // neighbours of position k on a ring of n
  function Succ(n: int, k: int): int { if k + 1 < n then k + 1 else 0 }

  function Pred(n: int, k: int): int { if k > 0 then k - 1 else n - 1 }

  lemma RingLinks(bufs: seq<Buffer>, ring: seq<int>, head: int, k: nat)
    requires RingOk(bufs, ring, head) && k < |ring|
    ensures 0 <= ring[k] < |bufs|
    ensures bufs[ring[k]].nextFree == ring[Succ(|ring|, k)] && bufs[ring[k]].prevFree == ring[Pred(|ring|, k)]
  {}

  lemma UnringLinks(q: Queues, ring: seq<int>, k: nat, i: nat)
    requires RingOk(q.bufs, ring, q.freeList) && k < |ring| && |ring| > 1 && i < |ring| && i != k
    ensures var r := Unring(q, ring[k]);
            && r.bufs[ring[i]].nextFree == ring[if i == Pred(|ring|, k) then Succ(|ring|, k) else Succ(|ring|, i)]
            && r.bufs[ring[i]].prevFree == ring[if i == Succ(|ring|, k) then Pred(|ring|, k) else Pred(|ring|, i)]
  {
    RingLinks(q.bufs, ring, q.freeList, i);
    RingLinks(q.bufs, ring, q.freeList, k);
    var p, n := Pred(|ring|, k), Succ(|ring|, k);
    RingLinks(q.bufs, ring, q.freeList, p);
    RingLinks(q.bufs, ring, q.freeList, n);
    assert ring[i] == ring[p] <==> i == p;
    assert ring[i] == ring[n] <==> i == n;
  }

  // position j of the shortened ring
  function Old(k: int, j: int): int { if j < k then j else j + 1 }

  lemma OldNeighbours(n: int, k: int, j: int)
    requires 0 <= k < n && 0 <= j < n - 1
    ensures var i := Old(k, j);
            && 0 <= i < n && i != k
            && Old(k, Succ(n - 1, j)) == (if i == Pred(n, k) then Succ(n, k) else Succ(n, i))
            && Old(k, Pred(n - 1, j)) == (if i == Succ(n, k) then Pred(n, k) else Pred(n, i))
  {}

  lemma WithoutAt(s: seq<int>, k: nat, j: nat)
    requires k < |s| && j < |s| - 1
    ensures Without(s, k)[j] == s[Old(k, j)]
  {}

  lemma UnringAt(q: Queues, ring: seq<int>, k: nat, j: nat)
    requires RingOk(q.bufs, ring, q.freeList) && k < |ring| && |ring| > 1 && j < |ring| - 1
    ensures var w, r := Without(ring, k), Unring(q, ring[k]);
            && 0 <= w[j] < |q.bufs|
            && r.bufs[w[j]].nextFree == w[Succ(|w|, j)] && r.bufs[w[j]].prevFree == w[Pred(|w|, j)]
  {
    OldNeighbours(|ring|, k, j);
    UnringLinks(q, ring, k, Old(k, j));
    WithoutAt(ring, k, j);
    WithoutAt(ring, k, Succ(|ring| - 1, j));
    WithoutAt(ring, k, Pred(|ring| - 1, j));
    RingLinks(q.bufs, ring, q.freeList, Old(k, j));
  }

  lemma LinksRing(bufs: seq<Buffer>, ring: seq<int>, head: int)
    requires Distinct(ring) && Indices(ring, |bufs|) && ring != [] && head == ring[0]
    requires forall j :: 0 <= j < |ring| ==>
      bufs[ring[j]].nextFree == ring[Succ(|ring|, j)] && bufs[ring[j]].prevFree == ring[Pred(|ring|, j)]
    ensures RingOk(bufs, ring, head)
  {}

  lemma UnringRing(q: Queues, ring: seq<int>, k: nat)
    requires RingOk(q.bufs, ring, q.freeList) && k < |ring| && |ring| > 1
    ensures RingOk(Unring(q, ring[k]).bufs, Without(ring, k), Unring(q, ring[k]).freeList)
  {
    WithoutElements(ring, k);
    var w, r := Without(ring, k), Unring(q, ring[k]);
    forall j | 0 <= j < |w|
      ensures 0 <= w[j] < |r.bufs|
      ensures r.bufs[w[j]].nextFree == w[Succ(|w|, j)] && r.bufs[w[j]].prevFree == w[Pred(|w|, j)]
    {
      UnringAt(q, ring, k, j);
    }
    RingLinks(q.bufs, ring, q.freeList, k);
    LinksRing(r.bufs, w, r.freeList);
  }

  // a buffer linked in before the head, and its neighbours
  lemma EnringAt(q: Queues, ring: seq<int>, b: int, j: nat)
    requires RingOk(q.bufs, ring, q.freeList) && 0 <= b < |q.bufs| && b !in ring && ring != [] && j <= |ring|
    ensures var w, r := ring + [b], Enring(q, b);
            && 0 <= w[j] < |q.bufs|
            && r.bufs[w[j]].nextFree == w[Succ(|w|, j)] && r.bufs[w[j]].prevFree == w[Pred(|w|, j)]
  {
    var n := |ring|;
    RingLinks(q.bufs, ring, q.freeList, 0);
    RingLinks(q.bufs, ring, q.freeList, n - 1);
    assert q.freeList == ring[0] && q.bufs[ring[0]].prevFree == ring[n - 1];
    if j < n {
      RingLinks(q.bufs, ring, q.freeList, j);
      assert ring[j] in ring && (ring[j] == ring[0] <==> j == 0) && (ring[j] == ring[n - 1] <==> j == n - 1);
    }
  }

  lemma EnringRing(q: Queues, ring: seq<int>, b: int)
    requires RingOk(q.bufs, ring, q.freeList) && 0 <= b < |q.bufs| && b !in ring
    requires ring == [] ==> q.freeList == b && q.bufs[b].prevFree == b
    ensures 0 <= q.freeList < |q.bufs| && RingOk(Enring(q, b).bufs, ring + [b], q.freeList)
  {
    if ring != [] {
      var w, r := ring + [b], Enring(q, b);
      forall j | 0 <= j < |w|
        ensures 0 <= w[j] < |r.bufs|
        ensures r.bufs[w[j]].nextFree == w[Succ(|w|, j)] && r.bufs[w[j]].prevFree == w[Pred(|w|, j)]
      {
        EnringAt(q, ring, b, j);
      }
      LinksRing(r.bufs, w, q.freeList);
    }
  }

  // the entry of a chain at position k, or NONE past its ends
  function ChainAt(chain: seq<int>, k: int): int { if 0 <= k < |chain| then chain[k] else NONE }

  lemma UnhashLinks(q: Queues, chain: seq<int>, k: nat, i: nat)
    requires |q.hash| > 0 && k < |chain| && 0 <= chain[k] < |q.bufs| && i < |chain| && i != k
    requires ChainOk(q.bufs, chain, q.hash[Slot(q, chain[k])])
    ensures var r := Unhash(q, chain[k]);
            && 0 <= chain[i] < |q.bufs|
            && r.bufs[chain[i]].next == (if i == k - 1 then ChainAt(chain, k + 1) else ChainAt(chain, i + 1))
            && r.bufs[chain[i]].prev == (if i == k + 1 then ChainAt(chain, k - 1) else ChainAt(chain, i - 1))
  {
    assert q.bufs[chain[k]].next == ChainAt(chain, k + 1) && q.bufs[chain[k]].prev == ChainAt(chain, k - 1);
    assert q.bufs[chain[i]].next == ChainAt(chain, i + 1) && q.bufs[chain[i]].prev == ChainAt(chain, i - 1);
    assert chain[i] == ChainAt(chain, k + 1) <==> i == k + 1;
    assert chain[i] == ChainAt(chain, k - 1) <==> i == k - 1;
  }

  lemma WithoutChainAt(s: seq<int>, k: nat, j: int)
    requires k < |s| && -1 <= j <= |s| - 1
    ensures ChainAt(Without(s, k), j) == if j < k then ChainAt(s, j) else ChainAt(s, j + 1)
  {}

  lemma UnhashAt(q: Queues, chain: seq<int>, k: nat, j: nat)
    requires |q.hash| > 0 && k < |chain| && 0 <= chain[k] < |q.bufs| && j < |chain| - 1
    requires ChainOk(q.bufs, chain, q.hash[Slot(q, chain[k])])
    ensures var w, r := Without(chain, k), Unhash(q, chain[k]);
            && 0 <= w[j] < |q.bufs|
            && r.bufs[w[j]].next == ChainAt(w, j + 1) && r.bufs[w[j]].prev == ChainAt(w, j - 1)
  {
    UnhashLinks(q, chain, k, Old(k, j));
    WithoutAt(chain, k, j);
    WithoutChainAt(chain, k, j + 1);
    WithoutChainAt(chain, k, j - 1);
  }

  lemma LinksChain(bufs: seq<Buffer>, chain: seq<int>, head: int)
    requires Distinct(chain) && Indices(chain, |bufs|) && head == ChainAt(chain, 0)
    requires forall j :: 0 <= j < |chain| ==>
      bufs[chain[j]].next == ChainAt(chain, j + 1) && bufs[chain[j]].prev == ChainAt(chain, j - 1)
    ensures ChainOk(bufs, chain, head)
  {}

  lemma UnhashChain(q: Queues, chain: seq<int>, k: nat)
    requires |q.hash| > 0 && k < |chain| && 0 <= chain[k] < |q.bufs|
    requires ChainOk(q.bufs, chain, q.hash[Slot(q, chain[k])])
    ensures var r := Unhash(q, chain[k]); ChainOk(r.bufs, Without(chain, k), r.hash[Slot(q, chain[k])])
  {
    WithoutElements(chain, k);
    var w, r := Without(chain, k), Unhash(q, chain[k]);
    forall j | 0 <= j < |w|
      ensures 0 <= w[j] < |r.bufs|
      ensures r.bufs[w[j]].next == ChainAt(w, j + 1) && r.bufs[w[j]].prev == ChainAt(w, j - 1)
    {
      UnhashAt(q, chain, k, j);
    }
    assert q.bufs[chain[k]].next == ChainAt(chain, k + 1);
    WithoutChainAt(chain, k, 0);
    LinksChain(r.bufs, w, r.hash[Slot(q, chain[k])]);
  }

  // chains are not disturbed by edits of buffers outside them
  lemma ChainKept(bufs: seq<Buffer>, bufs': seq<Buffer>, chain: seq<int>, head: int)
    requires ChainOk(bufs, chain, head) && |bufs'| == |bufs|
    requires forall b :: 0 <= b < |bufs| && b in chain ==>
      bufs'[b].next == bufs[b].next && bufs'[b].prev == bufs[b].prev
    ensures ChainOk(bufs', chain, head)
  {
    forall k | 0 <= k < |chain|
      ensures bufs'[chain[k]].next == bufs[chain[k]].next && bufs'[chain[k]].prev == bufs[chain[k]].prev
    {
      assert chain[k] in chain;
    }
  }

  lemma RingKept(bufs: seq<Buffer>, bufs': seq<Buffer>, ring: seq<int>, head: int)
    requires RingOk(bufs, ring, head) && |bufs'| == |bufs|
    requires forall b :: 0 <= b < |bufs| && b in ring ==>
      bufs'[b].nextFree == bufs[b].nextFree && bufs'[b].prevFree == bufs[b].prevFree
    ensures RingOk(bufs', ring, head)
  {
    forall k | 0 <= k < |ring|
      ensures bufs'[ring[k]].nextFree == bufs[ring[k]].nextFree && bufs'[ring[k]].prevFree == bufs[ring[k]].prevFree
    {
      assert ring[k] in ring;
    }
  }

  lemma EnhashChain(q: Queues, chain: seq<int>, b: int)
    requires |q.hash| > 0 && 0 <= b < |q.bufs| && b !in chain && q.bufs[b].head.dev != 0
    requires ChainOk(q.bufs, chain, q.hash[Slot(q, b)])
    ensures var r := Enhash(q, b); ChainOk(r.bufs, [b] + chain, r.hash[Slot(q, b)])
  {
    var w, r := [b] + chain, Enhash(q, b);
    forall j | 0 <= j < |w|
      ensures r.bufs[w[j]].next == if j + 1 < |w| then w[j + 1] else NONE
      ensures r.bufs[w[j]].prev == if j > 0 then w[j - 1] else NONE
    {
      if j > 0 { assert w[j] == chain[j - 1]; }
    }
  }

  lemma NeighboursOnChain(bufs: seq<Buffer>, chain: seq<int>, head: int, j: nat)
    requires ChainOk(bufs, chain, head) && j < |chain|
    ensures bufs[chain[j]].next == NONE || bufs[chain[j]].next in chain
    ensures bufs[chain[j]].prev == NONE || bufs[chain[j]].prev in chain
  {}

  // ----- which fields a step leaves alone -------------------------------------------

  ghost predicate SameHeads(q: Queues, r: Queues) {
    r.mix == q.mix && |r.hash| == |q.hash| && |r.bufs| == |q.bufs| && forall b :: 0 <= b < |q.bufs| ==>
      r.bufs[b].head == q.bufs[b].head
  }

  ghost predicate SameRingLinks(q: Queues, r: Queues) {
    r.freeList == q.freeList && |r.bufs| == |q.bufs| &&
    forall b :: 0 <= b < |q.bufs| ==>
      r.bufs[b].nextFree == q.bufs[b].nextFree && r.bufs[b].prevFree == q.bufs[b].prevFree
  }

  ghost predicate SameChainLinks(q: Queues, r: Queues) {
    r.hash == q.hash && |r.bufs| == |q.bufs| &&
    forall b :: 0 <= b < |q.bufs| ==> r.bufs[b].next == q.bufs[b].next && r.bufs[b].prev == q.bufs[b].prev
  }

  lemma UnhashFields(q: Queues, b: int)
    requires |q.hash| > 0 && 0 <= b < |q.bufs|
    ensures SameHeads(q, Unhash(q, b)) && SameRingLinks(q, Unhash(q, b))
  {}

  lemma UnringFields(q: Queues, b: int)
    requires 0 <= b < |q.bufs|
    ensures SameHeads(q, Unring(q, b)) && SameChainLinks(q, Unring(q, b))
  {}

  lemma EnringFields(q: Queues, b: int)
    requires 0 <= b < |q.bufs| && 0 <= q.freeList < |q.bufs|
    ensures SameHeads(q, Enring(q, b)) && SameChainLinks(q, Enring(q, b))
  {}

  lemma EnhashFields(q: Queues, b: int)
    requires |q.hash| > 0 && 0 <= b < |q.bufs|
    ensures SameHeads(q, Enhash(q, b)) && SameRingLinks(q, Enhash(q, b))
  {}

  lemma RingPartKept(q: Queues, r: Queues, ring: seq<int>, out: int)
    requires RingPart(q, ring, out) && SameRingLinks(q, r)
    ensures RingPart(r, ring, out)
  {
    RingKept(q.bufs, r.bufs, ring, q.freeList);
  }

  lemma ChainPartKept(q: Queues, r: Queues, chains: seq<seq<int>>, out: int)
    requires ChainPart(q, chains, out) && SameChainLinks(q, r) && SameHeads(q, r)
    ensures ChainPart(r, chains, out)
  {
    forall h | 0 <= h < |q.hash|
      ensures ChainOk(r.bufs, chains[h], r.hash[h])
    {
      ChainKept(q.bufs, r.bufs, chains[h], q.hash[h]);
    }
    forall b, h | 0 <= b < |q.bufs| && 0 <= h < |q.hash|
      ensures b in chains[h] <==> b != out && r.bufs[b].head.dev != 0 && Slot(r, b) == h
    {
      assert r.bufs[b].head == q.bufs[b].head && Slot(r, b) == Slot(q, b);
    }
    forall b | 0 <= b < |q.bufs| && b != out && r.bufs[b].head.dev == 0
      ensures r.bufs[b].next == NONE && r.bufs[b].prev == NONE
    {
      assert r.bufs[b].head == q.bufs[b].head;
    }
  }

  // ----- removal --------------------------------------------------------------------

  // the chains after b has been taken off its own
  ghost function ChainsWithout(q: Queues, chains: seq<seq<int>>, b: int, j: nat): seq<seq<int>>
    requires |q.hash| > 0 && 0 <= b < |q.bufs| && |chains| == |q.hash|
  {
    var h := Slot(q, b);
    if q.bufs[b].head.dev != 0 && j < |chains[h]| then chains[h := Without(chains[h], j)] else chains
  }

  ghost predicate OnChain(q: Queues, chains: seq<seq<int>>, b: int, j: nat)
    requires |q.hash| > 0 && 0 <= b < |q.bufs| && |chains| == |q.hash|
  {
    q.bufs[b].head.dev != 0 ==> j < |chains[Slot(q, b)]| && chains[Slot(q, b)][j] == b
  }

  // where b is on the ring and on its chain
  lemma Positions(q: Queues, ring: seq<int>, chains: seq<seq<int>>, b: int) returns (k: nat, j: nat)
    requires WellFormed(q, ring, chains, NONE) && 0 <= b < |q.bufs|
    ensures k < |ring| && ring[k] == b && OnChain(q, chains, b, j)
  {
    assert b in ring;
    k :| 0 <= k < |ring| && ring[k] == b;
    j := 0;
    if q.bufs[b].head.dev != 0 {
      assert b in chains[Slot(q, b)];
      j :| 0 <= j < |chains[Slot(q, b)]| && chains[Slot(q, b)][j] == b;
    }
  }

  lemma UnhashOneChain(q: Queues, chains: seq<seq<int>>, b: int, j: nat, h: nat)
    requires ChainPart(q, chains, NONE) && 0 <= b < |q.bufs| && h < |q.hash| && OnChain(q, chains, b, j)
    ensures ChainOk(Unhash(q, b).bufs, ChainsWithout(q, chains, b, j)[h], Unhash(q, b).hash[h])
    ensures forall c :: c in ChainsWithout(q, chains, b, j)[h] <==> c in chains[h] && c != b
  {
    var own := Slot(q, b);
    if q.bufs[b].head.dev == 0 {
      assert b !in chains[own];
    } else if h == own {
      UnhashChain(q, chains[h], j);
      WithoutElements(chains[h], j);
    } else {
      NeighboursOnChain(q.bufs, chains[own], q.hash[own], j);
      ChainKept(q.bufs, Unhash(q, b).bufs, chains[h], q.hash[h]);
    }
  }

  // buffers without a device stay off the chains
  lemma DevicelessUnlinked(q: Queues, chains: seq<seq<int>>, b: int, j: nat)
    requires ChainPart(q, chains, NONE) && 0 <= b < |q.bufs| && OnChain(q, chains, b, j)
    ensures forall c :: 0 <= c < |q.bufs| && q.bufs[c].head.dev == 0 ==>
      Unhash(q, b).bufs[c].next == NONE && Unhash(q, b).bufs[c].prev == NONE
  {
    var own := Slot(q, b);
    if q.bufs[b].head.dev != 0 { NeighboursOnChain(q.bufs, chains[own], q.hash[own], j); }
  }

  lemma UnhashChainPart(q: Queues, chains: seq<seq<int>>, b: int, j: nat)
    requires ChainPart(q, chains, NONE) && 0 <= b < |q.bufs| && OnChain(q, chains, b, j)
    ensures ChainPart(Unhash(q, b), ChainsWithout(q, chains, b, j), b)
  {
    var r, cs := Unhash(q, b), ChainsWithout(q, chains, b, j);
    UnhashFields(q, b);
    forall h | 0 <= h < |q.hash|
      ensures ChainOk(r.bufs, cs[h], r.hash[h]) && forall c :: c in cs[h] <==> c in chains[h] && c != b
    {
      UnhashOneChain(q, chains, b, j, h);
    }
    DevicelessUnlinked(q, chains, b, j);
    assert forall c :: 0 <= c < |q.bufs| ==> Slot(r, c) == Slot(q, c);
  }

  lemma UnringRingPart(q: Queues, ring: seq<int>, k: nat)
    requires RingPart(q, ring, NONE) && k < |ring|
    ensures RingPart(Unring(q, ring[k]), Without(ring, k), ring[k])
  {
    WithoutElements(ring, k);
    if |ring| > 1 { UnringRing(q, ring, k); }
  }

  /** remove_from_queues takes b, and only b, off both indexes. */
  lemma RemoveKeeps(q: Queues, ring: seq<int>, chains: seq<seq<int>>, k: nat, j: nat)
    requires WellFormed(q, ring, chains, NONE) && k < |ring| && OnChain(q, chains, ring[k], j)
    ensures WellFormed(Remove(q, ring[k]), Without(ring, k), ChainsWithout(q, chains, ring[k], j), ring[k])
    ensures SameHeads(q, Remove(q, ring[k]))
  {
    var b := ring[k];
    UnhashFields(q, b);
    UnhashChainPart(q, chains, b, j);
    RingPartKept(q, Unhash(q, b), ring, NONE);
    UnringFields(Unhash(q, b), b);
    UnringRingPart(Unhash(q, b), ring, k);
    ChainPartKept(Unhash(q, b), Remove(q, b), ChainsWithout(q, chains, b, j), b);
  }

  // ----- insertion ------------------------------------------------------------------

  ghost function ChainsWith(q: Queues, chains: seq<seq<int>>, b: int): seq<seq<int>>
    requires |q.hash| > 0 && 0 <= b < |q.bufs| && |chains| == |q.hash|
  {
    if q.bufs[b].head.dev != 0 then chains[Slot(q, b) := [b] + chains[Slot(q, b)]] else chains
  }

  lemma EnhashOneChain(q: Queues, chains: seq<seq<int>>, b: int, h: nat)
    requires ChainPart(q, chains, b) && 0 <= b < |q.bufs| && h < |q.hash|
    ensures ChainOk(Enhash(q, b).bufs, ChainsWith(q, chains, b)[h], Enhash(q, b).hash[h])
  {
    var own := Slot(q, b);
    assert b !in chains[h] && b !in chains[own];
    if q.bufs[b].head.dev == 0 {
      ChainKept(q.bufs, Enhash(q, b).bufs, chains[h], q.hash[h]);
    } else if h == own {
      EnhashChain(q, chains[h], b);
    } else {
      assert q.hash[own] == NONE || q.hash[own] in chains[own];
      ChainKept(q.bufs, Enhash(q, b).bufs, chains[h], q.hash[h]);
    }
  }

  lemma EnhashDeviceless(q: Queues, chains: seq<seq<int>>, b: int)
    requires ChainPart(q, chains, b) && 0 <= b < |q.bufs|
    ensures forall c :: 0 <= c < |q.bufs| && q.bufs[c].head.dev == 0 ==>
      Enhash(q, b).bufs[c].next == NONE && Enhash(q, b).bufs[c].prev == NONE
  {
    var own := Slot(q, b);
    assert q.hash[own] == NONE || q.hash[own] in chains[own];
  }

  lemma EnhashChainPart(q: Queues, chains: seq<seq<int>>, b: int)
    requires ChainPart(q, chains, b) && 0 <= b < |q.bufs|
    ensures ChainPart(Enhash(q, b), ChainsWith(q, chains, b), NONE)
  {
    var r, cs := Enhash(q, b), ChainsWith(q, chains, b);
    EnhashFields(q, b);
    forall h | 0 <= h < |q.hash|
      ensures ChainOk(r.bufs, cs[h], r.hash[h])
    {
      EnhashOneChain(q, chains, b, h);
    }
    EnhashDeviceless(q, chains, b);
    assert forall c :: 0 <= c < |q.bufs| ==> Slot(r, c) == Slot(q, c);
  }

  /** insert_into_queues puts b at the end of the free list and, if it has a device, at the
      head of the chain of its hash. */
  lemma InsertKeeps(q: Queues, ring: seq<int>, chains: seq<seq<int>>, b: int)
    requires WellFormed(q, ring, chains, b) && 0 <= b < |q.bufs|
    ensures 0 <= q.freeList < |q.bufs|
    ensures WellFormed(Insert(q, b), ring + [b], ChainsWith(q, chains, b), NONE) && SameHeads(q, Insert(q, b))
  {
    assert b !in ring;
    EnringRing(q, ring, b);
    var u := Enring(q, b);
    EnringFields(q, b);
    ChainPartKept(q, u, chains, b);
    EnhashFields(u, b);
    EnhashChainPart(u, chains, b);
    assert RingPart(u, ring + [b], NONE);
    RingPartKept(u, Insert(q, b), ring + [b], NONE);
    assert ChainsWith(u, chains, b) == ChainsWith(q, chains, b);
  }
}
