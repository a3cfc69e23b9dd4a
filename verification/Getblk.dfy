/** getblk, get_hash_table and brelse of fs/buffer.c under interleaving. The kernel is not
    preempted, so what a task does between two sleeps is one step; between steps any other
    task, or the disk driver, may act. */
module Getblk {
  import opened Basics
  import opened BufferQueues

  /** Where a call of getblk stands. Looking and Choosing wait for the buffer's lock; a call
      that has returned holds its buffer until brelse. */
  datatype Call =
    | Looking(dev: nat, block: nat, b: nat)      // get_hash_table found b and raised its count
    | Asleep(dev: nat, block: nat)               // every buffer is in use
    | Choosing(dev: nat, block: nat, b: nat)     // b is to be recycled
    | Syncing(dev: nat, block: nat, b: nat)      // b was dirty, sync_dev is running
    | Holding(dev: nat, block: nat, b: nat)

  datatype System = System(heads: seq<Head>, ring: seq<int>, calls: map<nat, Call>)

  // the buffers searched from k on for an identity
  function Lookup(heads: seq<Head>, dev: nat, block: nat, k: nat): (b: int)
    requires k <= |heads|
    ensures b == NONE || (k <= b < |heads| && heads[b].dev == dev && heads[b].block == block)
    ensures b == NONE ==> forall j :: k <= j < |heads| ==> !(heads[j].dev == dev && heads[j].block == block)
    decreases |heads| - k
  {
    if k == |heads| then NONE
    else if heads[k].dev == dev && heads[k].block == block then k
    else Lookup(heads, dev, block, k + 1)
  }

  // find_buffer: buffers without a device are on no chain
  function Find(heads: seq<Head>, dev: nat, block: nat): (b: int)
    ensures b == NONE || (0 <= b < |heads| && dev != 0 && heads[b].dev == dev && heads[b].block == block)
  {
    if dev == 0 then NONE else Lookup(heads, dev, block, 0)
  }

  function Badness(h: Head): nat { (if h.dirty then 2 else 0) + if h.locked then 1 else 0 }

  // the scan of the free list from position k on, best so far
  function Scan(heads: seq<Head>, ring: seq<int>, k: nat, best: int): int
    requires k <= |ring|
    requires forall j :: 0 <= j < |ring| ==> 0 <= ring[j] < |heads|
    requires best == NONE || 0 <= best < |heads|
    decreases |ring| - k
  {
    if k == |ring| then best
    else
      var b := ring[k];
      if heads[b].count != 0 then Scan(heads, ring, k + 1, best)
      else if best == NONE || Badness(heads[b]) < Badness(heads[best]) then
        if Badness(heads[b]) == 0 then b else Scan(heads, ring, k + 1, b)
      else Scan(heads, ring, k + 1, best)
  }

  ghost predicate RingOf(heads: seq<Head>, ring: seq<int>) {
    && (forall j :: 0 <= j < |ring| ==> 0 <= ring[j] < |heads|)
    && Distinct(ring)
    && (forall b :: 0 <= b < |heads| ==> b in ring)
  }

  /** The scan picks an unused buffer of least badness, and finds none only if all are in use. */
  lemma {:induction false} ScanPicksLeast(heads: seq<Head>, ring: seq<int>, k: nat, best: int)
    requires k <= |ring| && forall j :: 0 <= j < |ring| ==> 0 <= ring[j] < |heads|
    requires best == NONE || (0 <= best < |heads| && heads[best].count == 0)
    ensures var v := Scan(heads, ring, k, best);
            && (v == NONE || (0 <= v < |heads| && heads[v].count == 0))
            && (best != NONE ==> v != NONE && Badness(heads[v]) <= Badness(heads[best]))
            && (forall j :: k <= j < |ring| && heads[ring[j]].count == 0 ==>
                v != NONE && Badness(heads[v]) <= Badness(heads[ring[j]]))
    decreases |ring| - k
  {
    if k < |ring| {
      var b := ring[k];
      if heads[b].count != 0 {
        ScanPicksLeast(heads, ring, k + 1, best);
      } else if best == NONE || Badness(heads[b]) < Badness(heads[best]) {
        ScanPicksLeast(heads, ring, k + 1, b);
      } else {
        ScanPicksLeast(heads, ring, k + 1, best);
      }
    }
  }

  // clean before dirty, and of two alike the unlocked one
  predicate Better(h: Head, g: Head) { (!h.dirty && g.dirty) || (h.dirty == g.dirty && !h.locked && g.locked) }

  // of the unused among the first n buffers of the ring, v at place p is the first that none is better than
  ghost predicate FirstBest(heads: seq<Head>, ring: seq<int>, n: nat, v: int, p: nat)
    requires n <= |ring| && forall j :: 0 <= j < |ring| ==> 0 <= ring[j] < |heads|
  {
    && p < n && ring[p] == v && heads[v].count == 0
    && forall j :: 0 <= j < n && heads[ring[j]].count == 0 ==>
         !Better(heads[ring[j]], heads[v]) && (j < p ==> Better(heads[v], heads[ring[j]]))
  }

  /** The buffer to be recycled is clean if any unused one is, then unlocked if any of those is, and
      the first of them on the ring. */
  lemma {:induction false} ScanPicksBest(heads: seq<Head>, ring: seq<int>, k: nat, best: int, p: nat) returns (q: nat)
    requires k <= |ring| && forall j :: 0 <= j < |ring| ==> 0 <= ring[j] < |heads|
    requires if best == NONE then forall j :: 0 <= j < k ==> heads[ring[j]].count > 0
             else FirstBest(heads, ring, k, best, p)
    ensures var v := Scan(heads, ring, k, best);
            if v == NONE then forall j :: 0 <= j < |ring| ==> heads[ring[j]].count > 0
            else FirstBest(heads, ring, |ring|, v, q)
    decreases |ring| - k
  {
    q := p;
    if k < |ring| {
      var b := ring[k];
      if heads[b].count == 0 && (best == NONE || Better(heads[b], heads[best])) {
        q := k;
        if Badness(heads[b]) != 0 { q := ScanPicksBest(heads, ring, k + 1, b, k); }
      } else {
        q := ScanPicksBest(heads, ring, k + 1, best, p);
      }
    }
  }

  // ----- steps ----------------------------------------------------------------------

  function AddCount(s: System, b: nat, delta: int): System {
    if b < |s.heads| && s.heads[b].count + delta >= 0
    then s.(heads := s.heads[b := s.heads[b].(count := s.heads[b].count + delta)])
    else s
  }

  // the code from `repeat` to the next sleep
  function Repeat(s: System, id: nat, dev: nat, block: nat): System
    requires forall j :: 0 <= j < |s.ring| ==> 0 <= s.ring[j] < |s.heads|
  {
    var b := Find(s.heads, dev, block);
    if b != NONE then AddCount(s, b, 1).(calls := s.calls[id := Looking(dev, block, b)])
    else
      var v := Scan(s.heads, s.ring, 0, NONE);
      if v < 0 then s.(calls := s.calls[id := Asleep(dev, block)])
      else s.(calls := s.calls[id := Choosing(dev, block, v)])
  }

  // b is recycled: it goes to the end of the free list under its new identity
  function Recycle(s: System, id: nat, dev: nat, block: nat, b: nat): System {
    if b < |s.heads| then
      s.(heads := s.heads[b := Head(dev, block, 1, false, s.heads[b].locked)],
         ring := MoveToEnd(s.ring, b, 0),
         calls := s.calls[id := Holding(dev, block, b)])
    else s
  }

  function MoveToEnd(ring: seq<int>, b: int, k: nat): seq<int>
    decreases |ring| - k
  {
    if k >= |ring| then ring
    else if ring[k] == b then Without(ring, k) + [b]
    else MoveToEnd(ring, b, k + 1)
  }

  // the code after a wait for the buffer to be recycled
  function AfterChoice(s: System, id: nat, dev: nat, block: nat, b: nat): System
    requires forall j :: 0 <= j < |s.ring| ==> 0 <= s.ring[j] < |s.heads|
  {
    if b >= |s.heads| || s.heads[b].locked then s
    else if s.heads[b].count != 0 then Repeat(s, id, dev, block)
    else if s.heads[b].dirty then s.(calls := s.calls[id := Syncing(dev, block, b)])
    else if Find(s.heads, dev, block) != NONE then Repeat(s, id, dev, block)
    else Recycle(s, id, dev, block, b)
  }

  datatype Action =
    | Begin(id: nat, dev: nat, block: nat)       // a task calls getblk
    | Wake(id: nat)                              // a sleeping call runs on
    | Release(id: nat)                           // brelse by the holder
    | Modify(id: nat)                            // the holder dirties the buffer
    | Lock(b: nat)                               // a request locks a buffer
    | Clean(b: nat)                              // a write request of a locked buffer is queued
    | Unlock(b: nat)                             // the request ends

  function Awake(s: System, id: nat, c: Call): System
    requires forall j :: 0 <= j < |s.ring| ==> 0 <= s.ring[j] < |s.heads|
  {
    match c
    case Looking(dev, block, b) =>
      if b >= |s.heads| || s.heads[b].locked then s
      else if s.heads[b].dev == dev && s.heads[b].block == block then s.(calls := s.calls[id := Holding(dev, block, b)])
      else Repeat(AddCount(s, b, -1).(calls := s.calls - {id}), id, dev, block)
    case Asleep(dev, block) => Repeat(s, id, dev, block)
    case Choosing(dev, block, b) => AfterChoice(s, id, dev, block, b)
    case Syncing(dev, block, b) => s.(calls := s.calls[id := Choosing(dev, block, b)])
    case Holding(_, _, _) => s
  }

  // an action that is not possible changes nothing
  function Next(s: System, a: Action): System
    requires forall j :: 0 <= j < |s.ring| ==> 0 <= s.ring[j] < |s.heads|
  {
    match a
    case Begin(id, dev, block) => if id in s.calls then s else Repeat(s, id, dev, block)
    case Wake(id) => if id in s.calls then Awake(s, id, s.calls[id]) else s
    case Release(id) =>
      if id in s.calls && s.calls[id].Holding? && s.calls[id].b < |s.heads| && !s.heads[s.calls[id].b].locked
      then AddCount(s, s.calls[id].b, -1).(calls := s.calls - {id})
      else s
    case Modify(id) =>
      if id in s.calls && s.calls[id].Holding? && s.calls[id].b < |s.heads|
      then s.(heads := s.heads[s.calls[id].b := s.heads[s.calls[id].b].(dirty := true)])
      else s
    case Lock(b) =>
      if b < |s.heads| && !s.heads[b].locked then s.(heads := s.heads[b := s.heads[b].(locked := true)])
      else s
    case Clean(b) =>
      if b < |s.heads| && s.heads[b].locked then s.(heads := s.heads[b := s.heads[b].(dirty := false)])
      else s
    case Unlock(b) => if b < |s.heads| then s.(heads := s.heads[b := s.heads[b].(locked := false)]) else s
  }

  // ----- the invariant --------------------------------------------------------------

  predicate Refers(c: Call, b: int) { (c.Looking? || c.Holding?) && c.b == b }

  ghost function Users(s: System, b: int): set<nat> { set id | id in s.calls && Refers(s.calls[id], b) }

  // at most one buffer carries a given nonzero identity
  ghost predicate Unique(heads: seq<Head>) {
    forall j, k ::
      0 <= j < |heads| && 0 <= k < |heads| && heads[j].dev != 0
      && heads[j].dev == heads[k].dev && heads[j].block == heads[k].block
      ==> j == k
  }

  ghost predicate Inv(s: System) {
    && RingOf(s.heads, s.ring)
    && Unique(s.heads)
    && (forall b :: 0 <= b < |s.heads| ==> s.heads[b].count == |Users(s, b)|)
    && (forall id :: id in s.calls && !s.calls[id].Asleep? ==> s.calls[id].b < |s.heads|)
    && (forall id :: id in s.calls && (s.calls[id].Looking? || s.calls[id].Holding?) ==>
          s.heads[s.calls[id].b].dev == s.calls[id].dev && s.heads[s.calls[id].b].block == s.calls[id].block)
  }

  // the same buffers under the same identities
  ghost predicate SameIdentities(s: System, t: System) {
    |t.heads| == |s.heads| && forall b :: 0 <= b < |s.heads| ==>
      t.heads[b].dev == s.heads[b].dev && t.heads[b].block == s.heads[b].block
  }

  // id refers to no buffer
  ghost predicate Detached(s: System, id: nat) { id !in s.calls || !(s.calls[id].Looking? || s.calls[id].Holding?) }

  // the users of a buffer when only the call id changes
  lemma UsersUpdate(s: System, t: System, id: nat, b: int)
    requires forall x :: x != id ==> (x in t.calls <==> x in s.calls) && (x in s.calls ==> t.calls[x] == s.calls[x])
    ensures |Users(t, b)| == |Users(s, b)| + (if id in t.calls && Refers(t.calls[id], b) then 1 else 0)
                             - (if id in s.calls && Refers(s.calls[id], b) then 1 else 0)
  {
    assert forall x :: x in Users(s, b) - {id} <==> x in Users(t, b) - {id};
    assert Users(s, b) - {id} == Users(t, b) - {id};
    RemoveSize(Users(s, b), id);
    RemoveSize(Users(t, b), id);
  }

  // the call id moves on, and counts and identities follow
  lemma CallKeepsInv(s: System, t: System, id: nat)
    requires Inv(s) && RingOf(t.heads, t.ring) && Unique(t.heads) && |t.heads| == |s.heads|
    requires forall x :: x != id ==> (x in t.calls <==> x in s.calls) && (x in s.calls ==> t.calls[x] == s.calls[x])
    requires forall b :: 0 <= b < |s.heads| ==>
               t.heads[b].count == s.heads[b].count + (if id in t.calls && Refers(t.calls[id], b) then 1 else 0)
                                   - (if id in s.calls && Refers(s.calls[id], b) then 1 else 0)
    requires forall b :: 0 <= b < |s.heads| && s.heads[b].count > 0 ==>
      t.heads[b].dev == s.heads[b].dev && t.heads[b].block == s.heads[b].block
    requires id in t.calls && !t.calls[id].Asleep? ==> t.calls[id].b < |s.heads|
    requires id in t.calls && (t.calls[id].Looking? || t.calls[id].Holding?) ==>
               t.heads[t.calls[id].b].dev == t.calls[id].dev && t.heads[t.calls[id].b].block == t.calls[id].block
    ensures Inv(t)
  {
    forall b | 0 <= b < |t.heads| ensures t.heads[b].count == |Users(t, b)| { UsersUpdate(s, t, id, b); }
    forall x | x in t.calls && x != id && (t.calls[x].Looking? || t.calls[x].Holding?)
      ensures t.heads[t.calls[x].b].dev == t.calls[x].dev && t.heads[t.calls[x].b].block == t.calls[x].block
    {
      assert x in Users(s, s.calls[x].b);
    }
  }

  lemma RepeatKeeps(s: System, id: nat, dev: nat, block: nat)
    requires Inv(s) && Detached(s, id)
    ensures Inv(Repeat(s, id, dev, block)) && SameIdentities(s, Repeat(s, id, dev, block))
    ensures Repeat(s, id, dev, block).ring == s.ring
  {
    var t := Repeat(s, id, dev, block);
    if Find(s.heads, dev, block) == NONE { ScanPicksLeast(s.heads, s.ring, 0, NONE); }
    CallKeepsInv(s, t, id);
  }

  lemma {:induction false} MoveToEndKeeps(ring: seq<int>, b: int, k: nat)
    requires Distinct(ring) && k <= |ring|
    ensures Distinct(MoveToEnd(ring, b, k)) && forall x :: x in MoveToEnd(ring, b, k) <==> x in ring
    decreases |ring| - k
  {
    if k < |ring| {
      if ring[k] == b { WithoutElements(ring, k); } else { MoveToEndKeeps(ring, b, k + 1); }
    }
  }

  lemma RecycleKeeps(s: System, id: nat, dev: nat, block: nat, b: nat)
    requires Inv(s) && Detached(s, id) && b < |s.heads| && s.heads[b].count == 0 && Find(s.heads, dev, block) == NONE
    ensures Inv(Recycle(s, id, dev, block, b))
  {
    var t := Recycle(s, id, dev, block, b);
    MoveToEndKeeps(s.ring, b, 0);
    assert forall j :: 0 <= j < |t.ring| ==> t.ring[j] in t.ring;
    CallKeepsInv(s, t, id);
  }

  // lock and dirt bits are no concern of the invariant
  lemma FlagsKeepInv(s: System, b: nat, h: Head)
    requires Inv(s) && b < |s.heads| && h.dev == s.heads[b].dev && h.block == s.heads[b].block
    requires h.count == s.heads[b].count
    ensures Inv(s.(heads := s.heads[b := h]))
  {
    var t := s.(heads := s.heads[b := h]);
    forall c | 0 <= c < |t.heads| ensures t.heads[c].count == |Users(t, c)| { assert Users(t, c) == Users(s, c); }
  }

  lemma AwakeKeeps(s: System, id: nat)
    requires Inv(s) && id in s.calls
    ensures Inv(Awake(s, id, s.calls[id]))
  {
    match s.calls[id]
    case Looking(dev, block, b) =>
      if !s.heads[b].locked { CallKeepsInv(s, s.(calls := s.calls[id := Holding(dev, block, b)]), id); }
    case Asleep(dev, block) => RepeatKeeps(s, id, dev, block);
    case Choosing(dev, block, b) =>
      if !s.heads[b].locked {
        if s.heads[b].count != 0 { RepeatKeeps(s, id, dev, block); }
        else if s.heads[b].dirty { CallKeepsInv(s, s.(calls := s.calls[id := Syncing(dev, block, b)]), id); }
        else if Find(s.heads, dev, block) != NONE { RepeatKeeps(s, id, dev, block); }
        else { RecycleKeeps(s, id, dev, block, b); }
      }
    case Syncing(dev, block, b) => CallKeepsInv(s, s.(calls := s.calls[id := Choosing(dev, block, b)]), id);
    case Holding(_, _, _) =>
  }

  lemma ReleaseKeeps(s: System, id: nat)
    requires Inv(s)
    ensures Inv(Next(s, Release(id)))
  {
    if id in s.calls && s.calls[id].Holding? {
      assert id in Users(s, s.calls[id].b);
      if !s.heads[s.calls[id].b].locked { CallKeepsInv(s, Next(s, Release(id)), id); }
    }
  }

  lemma NextKeeps(s: System, a: Action)
    requires Inv(s)
    ensures Inv(Next(s, a))
  {
    match a
    case Begin(id, dev, block) => if id !in s.calls { RepeatKeeps(s, id, dev, block); }
    case Wake(id) => if id in s.calls { AwakeKeeps(s, id); }
    case Release(id) => ReleaseKeeps(s, id);
    case Modify(id) =>
      if id in s.calls && s.calls[id].Holding? {
        FlagsKeepInv(s, s.calls[id].b, s.heads[s.calls[id].b].(dirty := true));
      }
    case Lock(b) => if b < |s.heads| { FlagsKeepInv(s, b, s.heads[b].(locked := true)); }
    case Clean(b) => if b < |s.heads| { FlagsKeepInv(s, b, s.heads[b].(dirty := false)); }
    case Unlock(b) => if b < |s.heads| { FlagsKeepInv(s, b, s.heads[b].(locked := false)); }
  }

  // ----- what it means for the callers ----------------------------------------------

  /** A buffer changes its identity only while it is unused, unlocked and clean, and only
      to an identity that no buffer has. */
  lemma OnlyIdleBuffersChange(s: System, a: Action, b: nat)
    requires Inv(s) && b < |s.heads|
    requires Next(s, a).heads[b].dev != s.heads[b].dev || Next(s, a).heads[b].block != s.heads[b].block
    ensures s.heads[b].count == 0 && !s.heads[b].locked && !s.heads[b].dirty
    ensures Next(s, a).heads[b].dev != 0 ==>
              forall c :: 0 <= c < |s.heads| ==>
                !(s.heads[c].dev == Next(s, a).heads[b].dev && s.heads[c].block == Next(s, a).heads[b].block)
  {
    match a
    case Begin(id, dev, block) => if id !in s.calls { RepeatKeeps(s, id, dev, block); }
    case Wake(id) => if id in s.calls { AwakeChanges(s, id, b); }
    case _ =>
  }

  lemma AwakeChanges(s: System, id: nat, b: nat)
    requires Inv(s) && id in s.calls && b < |s.heads|
    requires var t := Awake(s, id, s.calls[id]);
             |t.heads| == |s.heads| ==> t.heads[b].dev != s.heads[b].dev || t.heads[b].block != s.heads[b].block
    ensures s.heads[b].count == 0 && !s.heads[b].locked && !s.heads[b].dirty
    ensures var t := Awake(s, id, s.calls[id]);
            t.heads[b].dev != 0 ==> forall c :: 0 <= c < |s.heads| ==>
              !(s.heads[c].dev == t.heads[b].dev && s.heads[c].block == t.heads[b].block)
  {
    match s.calls[id]
    case Looking(dev, block, c) =>
    case Asleep(dev, block) => RepeatKeeps(s, id, dev, block);
    case Choosing(dev, block, c) =>
      if s.heads[c].locked {
      } else if s.heads[c].count != 0 || (!s.heads[c].dirty && Find(s.heads, dev, block) != NONE) {
        RepeatKeeps(s, id, dev, block);
      }
    case Syncing(dev, block, c) =>
    case Holding(_, _, _) =>
  }

  function Run(s: System, actions: seq<Action>): System
    requires RingInRange(s)
    decreases |actions|
  {
    if actions == [] then s
    else
      var t := Next(s, actions[0]);
      if RingInRange(t) then Run(t, actions[1..]) else t
  }

  predicate RingInRange(s: System) { forall j :: 0 <= j < |s.ring| ==> 0 <= s.ring[j] < |s.heads| }

  lemma {:induction false} RunKeeps(s: System, actions: seq<Action>)
    requires Inv(s)
    ensures Inv(Run(s, actions))
    decreases |actions|
  {
    if actions != [] {
      NextKeeps(s, actions[0]);
      RunKeeps(Next(s, actions[0]), actions[1..]);
    }
  }

  /** Over any interleaving: calls that hold a buffer for the same nonzero block hold the same
      buffer, and it carries that block. */
  lemma HoldersShareOneBuffer(s: System, actions: seq<Action>, id: nat, id2: nat)
    requires Inv(s)
    requires var t := Run(s, actions); id in t.calls && id2 in t.calls && t.calls[id].Holding? && t.calls[id2].Holding?
    requires var t := Run(s, actions);
             t.calls[id].dev == t.calls[id2].dev != 0 && t.calls[id].block == t.calls[id2].block
    ensures var t := Run(s, actions);
            && t.calls[id].b == t.calls[id2].b < |t.heads|
            && t.heads[t.calls[id].b].dev == t.calls[id].dev && t.heads[t.calls[id].b].block == t.calls[id].block
  {
    RunKeeps(s, actions);
  }

  lemma HeldStays(s: System, a: Action, id: nat)
    requires Inv(s) && id in s.calls && s.calls[id].Holding? && a != Release(id)
    ensures id in Next(s, a).calls && Next(s, a).calls[id] == s.calls[id]
  {
    match a
    case Wake(x) => if x in s.calls && x != id { AwakeAlone(s, x, id); }
    case _ =>
  }

  lemma AwakeAlone(s: System, id: nat, other: nat)
    requires Inv(s) && id in s.calls && other in s.calls && other != id
    ensures var t := Awake(s, id, s.calls[id]); other in t.calls && t.calls[other] == s.calls[other]
  {}

  /** Once getblk has returned a buffer for a block, the buffer keeps that identity through any
      run in which the holder does not release it. */
  lemma {:induction false} HeldBufferKeepsIdentity(s: System, actions: seq<Action>, id: nat)
    requires Inv(s) && id in s.calls && s.calls[id].Holding? && Release(id) !in actions
    ensures var t := Run(s, actions);
            && id in t.calls && t.calls[id] == s.calls[id]
            && s.calls[id].b < |t.heads|
            && t.heads[s.calls[id].b].dev == s.calls[id].dev && t.heads[s.calls[id].b].block == s.calls[id].block
            && t.heads[s.calls[id].b].count > 0
    decreases |actions|
  {
    if actions == [] {
      assert id in Users(s, s.calls[id].b);
    } else {
      NextKeeps(s, actions[0]);
      assert actions[0] in actions;
      HeldStays(s, actions[0], id);
      HeldBufferKeepsIdentity(Next(s, actions[0]), actions[1..], id);
    }
  }

  // ----- when getblk sleeps, and that it returns -------------------------------------

  ghost predicate AllInUse(heads: seq<Head>) { forall b :: 0 <= b < |heads| ==> heads[b].count > 0 }

  // a buffer carries the block, where find_buffer can find it
  ghost predicate Cached(heads: seq<Head>, dev: nat, block: nat) {
    dev != 0 && exists b :: 0 <= b < |heads| && heads[b].dev == dev && heads[b].block == block
  }

  // the steps in which the call id looks for its block afresh
  ghost predicate Searches(s: System, a: Action, id: nat, dev: nat, block: nat)
    requires Inv(s)
  {
    if id !in s.calls then a == Begin(id, dev, block)
    else
      && a == Wake(id) && s.calls[id].dev == dev && s.calls[id].block == block
      && match s.calls[id]
         case Asleep(_, _) => true
         case Choosing(_, _, b) =>
           !s.heads[b].locked && (s.heads[b].count > 0 || (!s.heads[b].dirty && Cached(s.heads, dev, block)))
         case _ => false
  }

  lemma FindIff(heads: seq<Head>, dev: nat, block: nat)
    ensures Find(heads, dev, block) != NONE <==> Cached(heads, dev, block)
  {}

  lemma RepeatOutcome(s: System, id: nat, dev: nat, block: nat)
    requires Inv(s)
    ensures var t := Repeat(s, id, dev, block);
            && id in t.calls && t.calls[id].dev == dev && t.calls[id].block == block
            && (Cached(s.heads, dev, block) ==> t.calls[id].Looking?)
            && (!Cached(s.heads, dev, block) ==> t.heads == s.heads)
            && (!Cached(s.heads, dev, block) && AllInUse(s.heads) ==> t.calls[id].Asleep?)
            && (!Cached(s.heads, dev, block) && !AllInUse(s.heads) ==>
                  t.calls[id].Choosing? && t.calls[id].b < |s.heads| && s.heads[t.calls[id].b].count == 0)
  {
    FindIff(s.heads, dev, block);
    ScanPicksLeast(s.heads, s.ring, 0, NONE);
    if Scan(s.heads, s.ring, 0, NONE) == NONE {
      forall b | 0 <= b < |s.heads| ensures s.heads[b].count > 0 { assert b in s.ring; }
    }
  }

  /** A call that looks for its block is put to sleep exactly when all buffers are in use and none
      carries the block. */
  lemma SleepsIff(s: System, a: Action, id: nat, dev: nat, block: nat)
    requires Inv(s) && Searches(s, a, id, dev, block)
    ensures id in Next(s, a).calls
    ensures Next(s, a).calls[id].Asleep? <==> AllInUse(s.heads) && !Cached(s.heads, dev, block)
  {
    FindIff(s.heads, dev, block);
    RepeatOutcome(s, id, dev, block);
  }

  /** No other step puts a call to sleep. */
  lemma OnlySearchersSleep(s: System, a: Action, id: nat)
    requires Inv(s) && id in Next(s, a).calls && Next(s, a).calls[id].Asleep?
    requires id !in s.calls || s.calls[id] != Next(s, a).calls[id]
    ensures Searches(s, a, id, Next(s, a).calls[id].dev, Next(s, a).calls[id].block)
  {
    match a
    case Begin(x, dev, block) => RepeatOutcome(s, x, dev, block);
    case Wake(x) =>
      if x in s.calls {
        FindIff(s.heads, s.calls[x].dev, s.calls[x].block);
        RepeatOutcome(s, x, s.calls[x].dev, s.calls[x].block);
      }
    case _ =>
  }

  // the call id runs on, or the disk driver acts
  predicate Serves(a: Action, id: nat) { a == Wake(id) || a.Lock? || a.Clean? || a.Unlock? }

  ghost predicate Available(heads: seq<Head>, dev: nat, block: nat) { !AllInUse(heads) || Cached(heads, dev, block) }

  // after those actions the call id has its buffer
  ghost predicate Gets(s: System, id: nat, dev: nat, block: nat, actions: seq<Action>) {
    && (forall k :: 0 <= k < |actions| ==> Serves(actions[k], id))
    && RingInRange(s)
    && var t := Run(s, actions);
       id in t.calls && t.calls[id].Holding? && t.calls[id].dev == dev && t.calls[id].block == block
  }

  lemma GetsLater(s: System, id: nat, dev: nat, block: nat, a: Action, rest: seq<Action>)
    requires RingInRange(s) && Serves(a, id) && Gets(Next(s, a), id, dev, block, rest)
    ensures Gets(s, id, dev, block, [a] + rest)
  {
    assert ([a] + rest)[1..] == rest;
  }

  lemma GetsAfterTwo(s: System, id: nat, dev: nat, block: nat, a: Action, b: Action, rest: seq<Action>)
    returns (actions: seq<Action>)
    requires Inv(s) && Serves(a, id) && Serves(b, id)
    requires RingInRange(Next(s, a)) && Gets(Next(Next(s, a), b), id, dev, block, rest)
    ensures Gets(s, id, dev, block, actions)
  {
    NextKeeps(s, a);
    GetsLater(Next(s, a), id, dev, block, b, rest);
    GetsLater(s, id, dev, block, a, [b] + rest);
    actions := [a] + ([b] + rest);
  }

  lemma FoundGets(s: System, id: nat, dev: nat, block: nat, b: nat) returns (actions: seq<Action>)
    requires Inv(s) && id in s.calls && s.calls[id] == Looking(dev, block, b)
    ensures Gets(s, id, dev, block, actions)
  {
    NextKeeps(s, Unlock(b));
    NextKeeps(Next(s, Unlock(b)), Wake(id));
    actions := GetsAfterTwo(s, id, dev, block, Unlock(b), Wake(id), []);
  }

  // an unused clean buffer is recycled, unless the block has come into the cache meanwhile
  lemma CleanOutcome(s: System, id: nat, dev: nat, block: nat, b: nat)
    requires Inv(s) && id in s.calls && s.calls[id] == Choosing(dev, block, b)
    requires s.heads[b].count == 0 && !s.heads[b].dirty && !s.heads[b].locked
    ensures var t := Next(s, Wake(id));
            && id in t.calls && t.calls[id].dev == dev && t.calls[id].block == block
            && (t.calls[id].Looking? || t.calls[id].Holding?)
  {
    FindIff(s.heads, dev, block);
    RepeatOutcome(s, id, dev, block);
  }

  lemma CleanGets(s: System, id: nat, dev: nat, block: nat, b: nat) returns (actions: seq<Action>)
    requires Inv(s) && id in s.calls && s.calls[id] == Choosing(dev, block, b)
    requires s.heads[b].count == 0 && !s.heads[b].dirty
    ensures Gets(s, id, dev, block, actions)
  {
    var t := Next(s, Unlock(b));
    NextKeeps(s, Unlock(b));
    var u := Next(t, Wake(id));
    NextKeeps(t, Wake(id));
    CleanOutcome(t, id, dev, block, b);
    actions := [];
    if u.calls[id].Looking? { actions := FoundGets(u, id, dev, block, u.calls[id].b); }
    actions := GetsAfterTwo(s, id, dev, block, Unlock(b), Wake(id), actions);
  }

  // a dirty one is written first
  lemma UnusedGets(s: System, id: nat, dev: nat, block: nat, b: nat) returns (actions: seq<Action>)
    requires Inv(s) && id in s.calls && s.calls[id] == Choosing(dev, block, b) && s.heads[b].count == 0
    ensures Gets(s, id, dev, block, actions)
  {
    if !s.heads[b].dirty {
      actions := CleanGets(s, id, dev, block, b);
    } else {
      var t := Next(s, Unlock(b));
      NextKeeps(s, Unlock(b));
      var u := Next(t, Wake(id));
      NextKeeps(t, Wake(id));
      actions := SyncedGets(u, id, dev, block, b);
      actions := GetsAfterTwo(s, id, dev, block, Unlock(b), Wake(id), actions);
    }
  }

  lemma SyncedGets(s: System, id: nat, dev: nat, block: nat, b: nat) returns (actions: seq<Action>)
    requires Inv(s) && id in s.calls && s.calls[id] == Syncing(dev, block, b) && s.heads[b].count == 0
    ensures Gets(s, id, dev, block, actions)
  {
    var t := Next(s, Lock(b));
    NextKeeps(s, Lock(b));
    var u := Next(t, Clean(b));
    NextKeeps(t, Clean(b));
    var v := Next(u, Wake(id));
    NextKeeps(u, Wake(id));
    actions := CleanGets(v, id, dev, block, b);
    GetsLater(u, id, dev, block, Wake(id), actions);
    actions := GetsAfterTwo(s, id, dev, block, Lock(b), Clean(b), [Wake(id)] + actions);
  }

  // what Repeat leaves comes to its end
  lemma RepeatGets(s: System, id: nat, dev: nat, block: nat) returns (actions: seq<Action>)
    requires Inv(s) && Detached(s, id) && Available(s.heads, dev, block)
    ensures Gets(Repeat(s, id, dev, block), id, dev, block, actions)
  {
    var t := Repeat(s, id, dev, block);
    RepeatKeeps(s, id, dev, block);
    RepeatOutcome(s, id, dev, block);
    if Cached(s.heads, dev, block) { actions := FoundGets(t, id, dev, block, t.calls[id].b); }
    else { actions := UnusedGets(t, id, dev, block, t.calls[id].b); }
  }

  lemma ChosenGets(s: System, id: nat, dev: nat, block: nat, b: nat) returns (actions: seq<Action>)
    requires Inv(s) && id in s.calls && s.calls[id] == Choosing(dev, block, b) && Available(s.heads, dev, block)
    ensures Gets(s, id, dev, block, actions)
  {
    if s.heads[b].count == 0 {
      actions := UnusedGets(s, id, dev, block, b);
    } else {
      var t := Next(s, Unlock(b));
      NextKeeps(s, Unlock(b));
      UnlockKeepsAvailable(s, b, dev, block);
      actions := RepeatGets(t, id, dev, block);
      actions := GetsAfterTwo(s, id, dev, block, Unlock(b), Wake(id), actions);
    }
  }

  // the same buffers are in use under the same identities
  ghost predicate SameUse(heads: seq<Head>, heads': seq<Head>) {
    |heads'| == |heads| && forall b :: 0 <= b < |heads| ==>
      heads'[b].count == heads[b].count && heads'[b].dev == heads[b].dev && heads'[b].block == heads[b].block
  }

  lemma SameUseAvailable(heads: seq<Head>, heads': seq<Head>, dev: nat, block: nat)
    requires SameUse(heads, heads')
    ensures Available(heads', dev, block) <==> Available(heads, dev, block)
  {}

  lemma UnlockKeepsAvailable(s: System, b: nat, dev: nat, block: nat)
    requires Inv(s) && Available(s.heads, dev, block)
    ensures Available(Next(s, Unlock(b)).heads, dev, block)
  {
    SameUseAvailable(s.heads, Next(s, Unlock(b)).heads, dev, block);
  }

  /** Wherever a call of getblk stands, it gets its buffer when nobody but the disk driver acts
      meanwhile, provided that a buffer is unused or carries the block. */
  lemma WaitingGets(s: System, id: nat) returns (actions: seq<Action>)
    requires Inv(s) && id in s.calls && Available(s.heads, s.calls[id].dev, s.calls[id].block)
    ensures Gets(s, id, s.calls[id].dev, s.calls[id].block, actions)
  {
    match s.calls[id]
    case Looking(dev, block, b) => actions := FoundGets(s, id, dev, block, b);
    case Asleep(dev, block) =>
      actions := RepeatGets(s, id, dev, block);
      GetsLater(s, id, dev, block, Wake(id), actions);
      actions := [Wake(id)] + actions;
    case Choosing(dev, block, b) => actions := ChosenGets(s, id, dev, block, b);
    case Syncing(dev, block, b) =>
      NextKeeps(s, Wake(id));
      actions := ChosenGets(Next(s, Wake(id)), id, dev, block, b);
      GetsLater(s, id, dev, block, Wake(id), actions);
      actions := [Wake(id)] + actions;
    case Holding(_, _, _) => actions := [];
  }

  lemma SleepsStill(s: System, id: nat, dev: nat, block: nat, a: Action)
    requires Inv(s) && id in s.calls && s.calls[id] == Asleep(dev, block) && !Available(s.heads, dev, block)
    requires Serves(a, id)
    ensures Inv(Next(s, a)) && id in Next(s, a).calls && Next(s, a).calls[id] == Asleep(dev, block)
    ensures !Available(Next(s, a).heads, dev, block)
  {
    NextKeeps(s, a);
    if a == Wake(id) { RepeatOutcome(s, id, dev, block); }
    SameUseAvailable(s.heads, Next(s, a).heads, dev, block);
  }

  // without such a buffer a sleeping call goes on sleeping
  lemma {:induction false} SleepsOn(s: System, id: nat, dev: nat, block: nat, actions: seq<Action>)
    requires Inv(s) && id in s.calls && s.calls[id] == Asleep(dev, block) && !Available(s.heads, dev, block)
    requires forall k :: 0 <= k < |actions| ==> Serves(actions[k], id)
    ensures var t := Run(s, actions); id in t.calls && t.calls[id] == Asleep(dev, block)
    decreases |actions|
  {
    if actions != [] {
      var t := Next(s, actions[0]);
      assert Serves(actions[0], id);
      SleepsStill(s, id, dev, block, actions[0]);
      SleepsOn(t, id, dev, block, actions[1..]);
    }
  }

  /** Left to itself and the disk driver, a call of getblk returns a buffer of its block exactly when
      some buffer is unused or carries the block as it begins. */
  lemma ReturnsIff(s: System, id: nat, dev: nat, block: nat)
    requires Inv(s) && id !in s.calls
    ensures (exists actions :: Gets(Next(s, Begin(id, dev, block)), id, dev, block, actions)) <==>
            Available(s.heads, dev, block)
  {
    var t := Next(s, Begin(id, dev, block));
    if Available(s.heads, dev, block) {
      var actions := RepeatGets(s, id, dev, block);
    } else {
      RepeatKeeps(s, id, dev, block);
      RepeatOutcome(s, id, dev, block);
      forall actions | Gets(t, id, dev, block, actions) ensures false { SleepsOn(t, id, dev, block, actions); }
    }
  }

  // buffer_init: no buffer has a device
  ghost predicate Initial(s: System) {
    RingOf(s.heads, s.ring) && s.calls == map[] && forall b :: 0 <= b < |s.heads| ==>
      s.heads[b].dev == 0 && s.heads[b].count == 0
  }

  lemma InitialInv(s: System)
    requires Initial(s)
    ensures Inv(s)
  {
    forall b | 0 <= b < |s.heads| ensures s.heads[b].count == |Users(s, b)| { assert Users(s, b) == {}; }
  }
}
