/** read_pipe and write_pipe of fs/pipe.c: one page used as a ring by any number of readers and
    writers, who wait for each other on the wait queue of the pipe's inode. What a task does
    between two sleeps is one step. */
module Pipe {
  import opened Basics
  import Waiting = WaitQueues

  const PAGE_SIZE := 4096
  const QUEUE := 0              // the inode's i_wait among the wait queues

  // x & (PAGE_SIZE - 1)
  function Mask(x: int): (r: nat)
    ensures r < PAGE_SIZE
    ensures 0 <= x < PAGE_SIZE ==> r == x
    ensures PAGE_SIZE <= x < 2 * PAGE_SIZE ==> r == x - PAGE_SIZE
    ensures -PAGE_SIZE <= x < 0 ==> r == x + PAGE_SIZE
  {
    x % PAGE_SIZE
  }

  // ----- the ring -------------------------------------------------------------------

  datatype Ring = Ring(page: seq<Byte>, head: nat, tail: nat)

  ghost predicate Sound(r: Ring) { |r.page| == PAGE_SIZE && r.head < PAGE_SIZE && r.tail < PAGE_SIZE }

  // PIPE_SIZE
  function Size(r: Ring): (n: nat)
    ensures n < PAGE_SIZE
  {
    Mask(r.head - r.tail)
  }

  /** The bytes written and not yet read, oldest first. */
  function Contents(r: Ring): (c: seq<Byte>)
    requires |r.page| == PAGE_SIZE
    ensures |c| == Size(r)
  {
    seq(Size(r), i requires 0 <= i < Size(r) => r.page[Mask(r.tail + i)])
  }

  // n bytes have been read
  function Take(r: Ring, n: nat): Ring { r.(tail := Mask(r.tail + n)) }

  // data has been written from the head on, around the end of the page
  function Put(r: Ring, data: seq<Byte>): Ring
    requires |r.page| == PAGE_SIZE
  {
    Ring(seq(PAGE_SIZE, j requires 0 <= j < PAGE_SIZE =>
               if Mask(j - r.head) < |data| then data[Mask(j - r.head)] else r.page[j]),
         Mask(r.head + |data|), r.tail)
  }

  /** Reading drops bytes from the front, also across the end of the page. */
  lemma TakeDrops(r: Ring, n: nat)
    requires Sound(r) && n <= Size(r)
    ensures Sound(Take(r, n)) && Contents(Take(r, n)) == Contents(r)[n..]
  {
    var t := Take(r, n);
    assert Size(t) == Size(r) - n;
    forall i | 0 <= i < Size(r) - n ensures Contents(t)[i] == Contents(r)[n..][i] {
      assert Mask(t.tail + i) == Mask(r.tail + (n + i));
    }
  }

  /** Writing appends, also across the end of the page, and overwrites nothing unread. */
  lemma PutAppends(r: Ring, data: seq<Byte>)
    requires Sound(r) && Size(r) + |data| < PAGE_SIZE
    ensures Sound(Put(r, data)) && Contents(Put(r, data)) == Contents(r) + data
  {
    var p := Put(r, data);
    var n := Size(r);
    assert Size(p) == n + |data|;
    forall i | 0 <= i < n + |data| ensures Contents(p)[i] == (Contents(r) + data)[i] {
      var j := Mask(r.tail + i);
      assert Mask(j - r.head) == if i < n then i - n + PAGE_SIZE else i - n;
    }
  }

  // bytes that lie together
  lemma TakeAdjacent(r: Ring, n: nat)
    requires Sound(r) && n <= Size(r) && r.tail + n <= PAGE_SIZE
    ensures Contents(r)[..n] == r.page[r.tail..r.tail + n]
  {
    forall i | 0 <= i < n ensures Contents(r)[i] == r.page[r.tail + i] {
      assert Mask(r.tail + i) == r.tail + i;
    }
  }

  lemma PutAdjacent(r: Ring, data: seq<Byte>, page: seq<Byte>)
    requires Sound(r) && r.head + |data| <= PAGE_SIZE && |page| == PAGE_SIZE
    requires forall j :: 0 <= j < PAGE_SIZE ==>
      page[j] == if r.head <= j < r.head + |data| then data[j - r.head] else r.page[j]
    ensures Put(r, data) == Ring(page, Mask(r.head + |data|), r.tail)
  {
    forall j | 0 <= j < PAGE_SIZE ensures Put(r, data).page[j] == page[j] {
      assert Mask(j - r.head) == if j < r.head then j - r.head + PAGE_SIZE else j - r.head;
    }
  }

  // taking m bytes and then those at the front
  lemma TakeOn(r: Ring, m: nat, n: nat)
    requires Sound(r) && m <= Size(r) && n <= Size(Take(r, m))
    ensures m + n <= Size(r) && Take(Take(r, m), n) == Take(r, m + n) && Size(Take(r, m + n)) == Size(r) - (m + n)
    ensures Sound(Take(r, m)) && Contents(r)[..m] + Contents(Take(r, m))[..n] == Contents(r)[..m + n]
  {
    TakeDrops(r, m);
    TakeDrops(r, m + n);
    assert Contents(r)[..m] + Contents(r)[m..][..n] == Contents(r)[..m + n];
  }

  lemma PutPut(r: Ring, a: seq<Byte>, b: seq<Byte>)
    requires Sound(r) && |a| + |b| < PAGE_SIZE
    ensures Put(Put(r, a), b) == Put(r, a + b)
  {
    var once, twice := Put(r, a + b), Put(Put(r, a), b);
    var h := Mask(r.head + |a|);
    forall j | 0 <= j < PAGE_SIZE ensures once.page[j] == twice.page[j] {
      var d := Mask(j - r.head);
      assert Mask(j - h) == if d >= |a| then d - |a| else d - |a| + PAGE_SIZE;
    }
  }

  // writing m bytes and then those after them
  lemma PutOn(r: Ring, data: seq<Byte>, from: nat, m: nat, n: nat)
    requires Sound(r) && from + m + n <= |data| && Size(r) + m + n < PAGE_SIZE
    ensures Put(Put(r, data[from..from + m]), data[from + m..from + m + n]) == Put(r, data[from..from + m + n])
    ensures Sound(Put(r, data[from..from + m + n])) && Size(Put(r, data[from..from + m + n])) == Size(r) + m + n
  {
    var a, b := data[from..from + m], data[from + m..from + m + n];
    assert a + b == data[from..from + m + n];
    PutPut(r, a, b);
    PutAppends(r, a + b);
  }

  // ----- the ring in place ----------------------------------------------------------

  class PipeBuffer {
    const page: array<Byte>
    var head: nat
    var tail: nat

    ghost function State(): Ring
      reads this, page
    {
      Ring(page[..], head, tail)
    }

    constructor ()
      ensures fresh(page) && Sound(State()) && Contents(State()) == []
    {
      page := new Byte[PAGE_SIZE](_ => 0);
      head, tail := 0, 0;
    }

    // PIPE_SIZE
    function Held(): (n: nat)
      reads this
      ensures n < PAGE_SIZE
    {
      Mask(head - tail)
    }

    /** One turn of read_pipe's loop: as many bytes as lie together. */
    method TakeChunk(count: nat) returns (chunk: seq<Byte>)
      requires Sound(State()) && count > 0 && Held() != 0
      modifies this`tail
      ensures Sound(State()) && State() == Take(old(State()), |chunk|)
      ensures 0 < |chunk| <= Min(count, old(Held())) && chunk == Contents(old(State()))[..|chunk|]
    {
      var chars := PAGE_SIZE - tail;
      if chars > count { chars := count; }
      if chars > Held() { chars := Held(); }
      chunk := CopyOut(tail, chars);
      TakeAdjacent(State(), chars);
      tail := Mask(tail + chars);
    }

    /** The loop of read_pipe up to where it would sleep or is done: it takes what there is, and
        no more than it wants. */
    method ReadSome(count: int) returns (data: seq<Byte>)
      requires Sound(State())
      modifies this`tail
      ensures Sound(State()) && State() == Take(old(State()), |data|)
      ensures data == Contents(old(State()))[..Min(Max(count, 0), old(Held()))]
    {
      data := [];
      ghost var all := Contents(State());
      while count - |data| > 0 && Held() != 0
        invariant Sound(State()) && |data| <= Max(count, 0) && |data| <= |all| && Held() == |all| - |data|
        invariant State() == Take(old(State()), |data|) && data == all[..|data|]
        decreases Max(count, 0) - |data|
      {
        data := TakeMore(old(State()), count, data);
      }
    }

    // the turn after data has been taken from the ring r
    method TakeMore(ghost r: Ring, count: int, data: seq<Byte>) returns (more: seq<Byte>)
      requires Sound(r) && |data| <= Size(r) && data == Contents(r)[..|data|] && State() == Take(r, |data|)
      requires count > |data| && Held() != 0
      modifies this`tail
      ensures |data| < |more| <= count && |more| <= Size(r) && more == Contents(r)[..|more|]
      ensures Sound(State()) && State() == Take(r, |more|) && Held() == Size(r) - |more|
    {
      var chunk := TakeChunk(count - |data|);
      TakeOn(r, |data|, |chunk|);
      more := data + chunk;
    }

    // the byte loop of read_pipe
    method CopyOut(from: nat, chars: nat) returns (chunk: seq<Byte>)
      requires page.Length == PAGE_SIZE && from + chars <= PAGE_SIZE
      ensures chunk == page[from..from + chars]
    {
      chunk := [];
      while |chunk| < chars
        invariant |chunk| <= chars && chunk == page[from..from + |chunk|]
      {
        chunk := chunk + [page[from + |chunk|]];
      }
    }

    /** One turn of write_pipe's loop. */
    method PutChunk(data: seq<Byte>, from: nat) returns (chars: nat)
      requires Sound(State()) && from < |data| && Held() != PAGE_SIZE - 1
      modifies this`head, page
      ensures 0 < chars <= Min(|data| - from, PAGE_SIZE - 1 - old(Held()))
      ensures Sound(State()) && State() == Put(old(State()), data[from..from + chars])
    {
      chars := PAGE_SIZE - head;
      if chars > |data| - from { chars := |data| - from; }
      if chars > PAGE_SIZE - 1 - Held() { chars := PAGE_SIZE - 1 - Held(); }
      CopyIn(head, data, from, chars);
      PutAdjacent(old(State()), data[from..from + chars], page[..]);
      head := Mask(head + chars);
    }

    /** The loop of write_pipe up to where it would sleep or is done: it writes what there is
        room for, leaving one byte free. */
    method WriteSome(data: seq<Byte>, from: nat) returns (chars: nat)
      requires Sound(State()) && from <= |data|
      modifies this`head, page
      ensures chars == Min(|data| - from, PAGE_SIZE - 1 - old(Held()))
      ensures Sound(State()) && State() == Put(old(State()), data[from..from + chars])
    {
      chars := 0;
      PutAdjacent(State(), [], page[..]);
      while |data| - from - chars > 0 && PAGE_SIZE - 1 - Held() != 0
        invariant from + chars <= |data| && Held() == old(Held()) + chars
        invariant Sound(State()) && State() == Put(old(State()), data[from..from + chars])
        decreases |data| - chars
      {
        chars := PutMore(old(State()), data, from, chars);
      }
    }

    // the turn after so many bytes have been put into the ring r
    method PutMore(ghost r: Ring, data: seq<Byte>, from: nat, chars: nat) returns (more: nat)
      requires Sound(r) && from + chars < |data| && Held() == Size(r) + chars < PAGE_SIZE - 1
      requires Sound(State()) && State() == Put(r, data[from..from + chars])
      modifies this`head, page
      ensures chars < more <= |data| - from && Held() == Size(r) + more < PAGE_SIZE
      ensures Sound(State()) && State() == Put(r, data[from..from + more])
    {
      var n := PutChunk(data, from + chars);
      more := chars + n;
      PutOn(r, data, from, chars, n);
    }

    // the byte loop of write_pipe
    method CopyIn(to: nat, data: seq<Byte>, from: nat, chars: nat)
      requires page.Length == PAGE_SIZE && to + chars <= PAGE_SIZE && from + chars <= |data|
      modifies page
      ensures forall j :: 0 <= j < PAGE_SIZE ==>
        page[j] == if to <= j < to + chars then data[from + (j - to)] else old(page[j])
    {
      var i := 0;
      while i < chars
        invariant i <= chars
        invariant forall j :: 0 <= j < PAGE_SIZE ==>
          page[j] == if to <= j < to + i then data[from + (j - to)] else old(page[j])
      {
        page[to + i] := data[from + i];
        i := i + 1;
      }
    }
  }

  // ----- any interleaving -----------------------------------------------------------

  /** A call of read_pipe or write_pipe, with what it has moved so far. */
  datatype Call = Reading(count: int, moved: seq<Byte>) | Writing(data: seq<Byte>, written: nat)

  /** What happened, oldest first; alone says that a call found the other end closed. */
  datatype Event =
    | Began(task: nat, call: Call)
    | Took(task: nat, bytes: seq<Byte>)
    | Gave(task: nat, bytes: seq<Byte>)
    | Returned(task: nat, value: int, alone: bool)

  /** calls holds the locals of the tasks that sleep inside read_pipe or write_pipe; log is
      history that no step reads. */
  datatype World = World(ring: Ring, wait: Waiting.World, calls: map<nat, Call>, log: seq<Event>)

  datatype Action =
    | Read(t: nat, count: int, alone: bool)
    | Write(t: nat, data: seq<Byte>, alone: bool)
    | Resume(t: nat, alone: bool)
    | Other(action: Waiting.Action)   // outside the two functions; it may wake the pipe's queue

  function Delivered(log: seq<Event>): seq<Byte> {
    if log == [] then [] else
    Delivered(log[..|log| - 1]) + if log[|log| - 1].Took? then log[|log| - 1].bytes else []
  }

  function Accepted(log: seq<Event>): seq<Byte> {
    if log == [] then [] else
    Accepted(log[..|log| - 1]) + if log[|log| - 1].Gave? then log[|log| - 1].bytes else []
  }

  // what task t asked for last
  function Asked(log: seq<Event>, t: nat): Call {
    if log == [] then Reading(0, []) else
    var e := log[|log| - 1];
    if e.Began? && e.task == t then e.call else Asked(log[..|log| - 1], t)
  }

  // the bytes task t has moved since then
  function Moved(log: seq<Event>, t: nat): seq<Byte> {
    if log == [] then [] else
    var e := log[|log| - 1];
    if e.task != t || e.Returned? then Moved(log[..|log| - 1], t) else
    if e.Began? then [] else Moved(log[..|log| - 1], t) + e.bytes
  }

  // what a call has yet to move
  function Rest(c: Call): nat {
    match c
    case Reading(count, moved) => Max(count - |moved|, 0)
    case Writing(data, written) => Max(|data| - written, 0)
  }

  predicate IsFresh(c: Call) { if c.Reading? then c.moved == [] else c.written == 0 }

  // what it moves before it returns or sleeps
  function Chunk(r: Ring, c: Call): (b: seq<Byte>)
    requires |r.page| == PAGE_SIZE
  {
    match c
    case Reading(_, _) => Contents(r)[..Min(Rest(c), Size(r))]
    case Writing(data, written) =>
      if written > |data| then [] else data[written..written + Min(Rest(c), PAGE_SIZE - 1 - Size(r))]
  }

  function Advanced(c: Call, chunk: seq<Byte>): Call {
    if c.Reading? then c.(moved := c.moved + chunk) else c.(written := c.written + |chunk|)
  }

  // what a call that stops returns
  function Value(c: Call): int {
    match c
    case Reading(_, moved) => |moved|
    case Writing(data, written) => if written == 0 && data != [] then -1 else written
  }

  /** Task t runs in call c until it returns or sleeps; it calls wake_up before either. */
  function Go(w: World, t: nat, c: Call, alone: bool): (v: World)
    requires |w.ring.page| == PAGE_SIZE
    ensures |v.ring.page| == PAGE_SIZE
  {
    var chunk := Chunk(w.ring, c);
    var d := Advanced(c, chunk);
    var ring := if c.Reading? then Take(w.ring, |chunk|) else Put(w.ring, chunk);
    var log := w.log + [if c.Reading? then Took(t, chunk) else Gave(t, chunk)];
    var wait := Waiting.Next(w.wait, Waiting.Wake(QUEUE));
    if Rest(d) == 0 || alone then World(ring, wait, w.calls - {t}, log + [Returned(t, Value(d), alone)])
    else World(ring, Waiting.Next(wait, Waiting.Sleep(t, QUEUE)), w.calls[t := d], log)
  }

  // a running task that could sleep makes a call
  function Begin(w: World, t: nat, c: Call, alone: bool): (v: World)
    requires |w.ring.page| == PAGE_SIZE
    ensures |v.ring.page| == PAGE_SIZE
  {
    if Waiting.Enabled(w.wait, Waiting.Sleep(t, QUEUE)) then Go(w.(log := w.log + [Began(t, c)]), t, c, alone) else w
  }

  // sleep_on returns
  function Back(w: World, t: nat): World {
    w.(wait := Waiting.Next(w.wait, Waiting.Resume(t)), calls := w.calls - {t})
  }

  // an action that is not possible changes nothing
  function Next(w: World, a: Action): (v: World)
    requires |w.ring.page| == PAGE_SIZE
    ensures |v.ring.page| == PAGE_SIZE
  {
    match a
    case Read(t, count, alone) => Begin(w, t, Reading(count, []), alone)
    case Write(t, data, alone) => Begin(w, t, Writing(data, 0), alone)
    case Resume(t, alone) =>
      if t in w.calls && Waiting.Enabled(w.wait, Waiting.Resume(t)) then Go(Back(w, t), t, w.calls[t], alone) else w
    case Other(b) =>
      if (b.Sleep? && b.q == QUEUE) || (b.Resume? && b.t in w.calls) then w else w.(wait := Waiting.Next(w.wait, b))
  }

  // ----- the invariant --------------------------------------------------------------

  predicate OnPipe(wait: Waiting.World, t: int) {
    Waiting.Inside(wait, t) && wait.tasks[t].place.queue == QUEUE
  }

  // those inside a call wait on the pipe's queue, and nobody waits behind anybody else
  ghost predicate WaitOk(wait: Waiting.World, calls: map<nat, Call>) {
    && Waiting.Inv(wait)
    && (forall t: nat :: t in calls <==> OnPipe(wait, t))
    && (forall t: nat :: t in calls ==> t > 0 && wait.tasks[t].place.tmp == Waiting.NONE)
  }

  // the log knows the call
  ghost predicate Known(log: seq<Event>, t: nat, c: Call) {
    match c
    case Reading(count, moved) =>
      Asked(log, t) == Reading(count, []) && Moved(log, t) == moved && |moved| <= Max(count, 0)
    case Writing(data, written) =>
      Asked(log, t) == Writing(data, 0) && written <= |data| && Moved(log, t) == data[..written]
  }

  /** A call that returned has moved what its value says, in order, and all of it unless the
      other end was closed. */
  ghost predicate ReturnOk(log: seq<Event>, k: nat)
    requires k < |log| && log[k].Returned?
  {
    var moved := Moved(log[..k], log[k].task);
    match Asked(log[..k], log[k].task)
    case Reading(count, _) => log[k].value == |moved| <= Max(count, 0) && (|moved| == Max(count, 0) || log[k].alone)
    case Writing(data, _) =>
      && moved <= data && (moved == data || log[k].alone)
      && log[k].value == if moved == [] && data != [] then -1 else |moved|
  }

  ghost predicate LogOk(log: seq<Event>) {
    forall k {:trigger ReturnOk(log, k)} :: 0 <= k < |log| && log[k].Returned? ==> ReturnOk(log, k)
  }

  // a call sleeps only on an empty ring, or a full one
  ghost predicate MustWait(r: Ring, c: Call) { Size(r) == if c.Reading? then 0 else PAGE_SIZE - 1 }

  ghost predicate Inv(w: World) {
    && Sound(w.ring) && Delivered(w.log) + Contents(w.ring) == Accepted(w.log)
    && WaitOk(w.wait, w.calls) && LogOk(w.log)
    && (forall t :: t in w.calls ==> Known(w.log, t, w.calls[t]))
    && (forall t :: t in w.calls && Waiting.Asleep(w.wait, t) ==> MustWait(w.ring, w.calls[t]))
  }

  // ----- the queue ------------------------------------------------------------------

  // who points at a sleeper of the pipe waits on the pipe
  lemma LinksStay(wait: Waiting.World, t: nat)
    requires Waiting.Inv(wait) && OnPipe(wait, t)
    ensures forall u :: Waiting.Link(wait, u, t) ==> OnPipe(wait, u)
  {
    forall u | Waiting.Link(wait, u, t) ensures OnPipe(wait, u) { assert Waiting.TmpSound(wait, u); }
  }

  // since nobody waits behind anybody else, only the head can be asleep
  lemma OnlyHeadSleeps(wait: Waiting.World, calls: map<nat, Call>, t: nat)
    requires WaitOk(wait, calls) && t in calls && Waiting.Asleep(wait, t)
    ensures |wait.heads| > 0 && wait.heads[QUEUE] == t
  {
    assert Waiting.Named(wait, t);
    LinksStay(wait, t);
    assert forall u: nat :: OnPipe(wait, u) ==> !Waiting.Link(wait, u, t);
    var q :| 0 <= q < |wait.heads| && wait.heads[q] == t;
    assert Waiting.Pointer(wait, wait.heads[q], q, wait.clock);
  }

  // wake_up leaves nobody asleep on the pipe
  lemma WakesAll(wait: Waiting.World, calls: map<nat, Call>)
    requires WaitOk(wait, calls) && |wait.heads| > 0
    ensures var v := Waiting.Next(wait, Waiting.Wake(QUEUE));
            && WaitOk(v, calls) && v.heads[QUEUE] == Waiting.NONE
            && forall t :: t in calls ==> !Waiting.Asleep(v, t)
  {
    var v := Waiting.Next(wait, Waiting.Wake(QUEUE));
    Waiting.NextKeeps(wait, Waiting.Wake(QUEUE));
    forall t | t in calls ensures !Waiting.Asleep(v, t) {
      if Waiting.Asleep(wait, t) { OnlyHeadSleeps(wait, calls, t); }
    }
  }

  // then the task itself may sleep, behind nobody
  lemma SleepsAlone(wait: Waiting.World, calls: map<nat, Call>, t: nat, c: Call)
    requires WaitOk(wait, calls) && Waiting.Enabled(wait, Waiting.Sleep(t, QUEUE)) && wait.heads[QUEUE] == Waiting.NONE
    requires forall u :: u in calls ==> !Waiting.Asleep(wait, u)
    ensures var v := Waiting.Next(wait, Waiting.Sleep(t, QUEUE));
            WaitOk(v, calls[t := c]) && forall u :: u in calls && u != t ==> !Waiting.Asleep(v, u)
  {
    Waiting.NextKeeps(wait, Waiting.Sleep(t, QUEUE));
  }

  // sleep_on's return wakes nobody here
  lemma BackAlone(w: World, t: nat)
    requires WaitOk(w.wait, w.calls) && t in w.calls && Waiting.Enabled(w.wait, Waiting.Resume(t))
    ensures WaitOk(Back(w, t).wait, Back(w, t).calls)
    ensures forall u :: u in w.calls && u != t ==> Waiting.Asleep(Back(w, t).wait, u) == Waiting.Asleep(w.wait, u)
    ensures w.wait.tasks[t].running && 0 < |w.wait.heads|
  {
    Waiting.NextKeeps(w.wait, Waiting.Resume(t));
    assert Waiting.TmpSound(w.wait, t);
  }

  // what happens outside leaves the calls inside, and wakes at most
  lemma OtherKeeps(wait: Waiting.World, calls: map<nat, Call>, b: Waiting.Action)
    requires WaitOk(wait, calls) && !(b.Sleep? && b.q == QUEUE) && !(b.Resume? && b.t in calls)
    ensures WaitOk(Waiting.Next(wait, b), calls)
    ensures forall t :: t in calls && Waiting.Asleep(Waiting.Next(wait, b), t) ==> Waiting.Asleep(wait, t)
  {
    Waiting.NextKeeps(wait, b);
  }

  // ----- the log --------------------------------------------------------------------

  lemma LogOn(log: seq<Event>, e: Event)
    ensures Delivered(log + [e]) == Delivered(log) + if e.Took? then e.bytes else []
    ensures Accepted(log + [e]) == Accepted(log) + if e.Gave? then e.bytes else []
    ensures LogOk(log) && (e.Returned? ==> ReturnOk(log + [e], |log|)) ==> LogOk(log + [e])
  {
    assert (log + [e])[..|log|] == log;
    forall k | LogOk(log) && 0 <= k < |log| && log[k].Returned? ensures ReturnOk(log + [e], k) {
      assert (log + [e])[..k] == log[..k];
      assert ReturnOk(log, k);
    }
  }

  // an event of one task means nothing to the calls of the others, and a return to none
  lemma KnownOn(log: seq<Event>, e: Event, t: nat, c: Call)
    requires Known(log, t, c) && (e.task != t || e.Returned?)
    ensures Known(log + [e], t, c)
  {
    assert (log + [e])[..|log|] == log;
  }

  lemma KnownBegins(log: seq<Event>, t: nat, c: Call)
    requires IsFresh(c)
    ensures Known(log + [Began(t, c)], t, c)
  {
    assert (log + [Began(t, c)])[..|log|] == log;
  }

  lemma KnownAdvances(r: Ring, log: seq<Event>, t: nat, c: Call)
    requires Sound(r) && Known(log, t, c)
    ensures var chunk := Chunk(r, c);
            Known(log + [if c.Reading? then Took(t, chunk) else Gave(t, chunk)], t, Advanced(c, chunk))
  {
    var chunk := Chunk(r, c);
    var e := if c.Reading? then Took(t, chunk) else Gave(t, chunk);
    assert (log + [e])[..|log|] == log;
    if c.Writing? {
      assert c.data[..c.written] + chunk == c.data[..c.written + |chunk|];
    }
  }

  lemma ReturnFits(log: seq<Event>, t: nat, c: Call, alone: bool)
    requires Known(log, t, c) && (Rest(c) == 0 || alone)
    ensures ReturnOk(log + [Returned(t, Value(c), alone)], |log|)
  {
    assert (log + [Returned(t, Value(c), alone)])[..|log|] == log;
  }

  // ----- every step keeps the invariant ---------------------------------------------

  // the events of a turn
  lemma GoBytes(w: World, t: nat, c: Call, alone: bool)
    requires Sound(w.ring)
    ensures var chunk := Chunk(w.ring, c); var v := Go(w, t, c, alone);
            && Delivered(v.log) == Delivered(w.log) + (if c.Reading? then chunk else [])
            && Accepted(v.log) == Accepted(w.log) + (if c.Reading? then [] else chunk)
  {
    var chunk := Chunk(w.ring, c);
    var e := if c.Reading? then Took(t, chunk) else Gave(t, chunk);
    LogOn(w.log, e);
    LogOn(w.log + [e], Returned(t, Value(Advanced(c, chunk)), alone));
  }

  // the ring of a turn
  lemma TurnRing(r: Ring, c: Call)
    requires Sound(r)
    ensures var chunk := Chunk(r, c);
            if c.Reading?
            then Sound(Take(r, |chunk|)) && Contents(r) == chunk + Contents(Take(r, |chunk|))
            else Sound(Put(r, chunk)) && Contents(Put(r, chunk)) == Contents(r) + chunk
  {
    var chunk := Chunk(r, c);
    if c.Reading? {
      TakeDrops(r, |chunk|);
      assert Contents(r) == Contents(r)[..|chunk|] + Contents(r)[|chunk|..];
    } else {
      PutAppends(r, chunk);
    }
  }

  lemma BalanceTaken(delivered: seq<Byte>, held: seq<Byte>, accepted: seq<Byte>, chunk: seq<Byte>, rest: seq<Byte>)
    requires delivered + held == accepted && held == chunk + rest
    ensures delivered + chunk + rest == accepted + []
  {}

  lemma BalanceGiven(delivered: seq<Byte>, held: seq<Byte>, accepted: seq<Byte>, chunk: seq<Byte>)
    requires delivered + held == accepted
    ensures delivered + [] + (held + chunk) == accepted + chunk
  {}

  lemma GoRing(w: World, t: nat, c: Call, alone: bool)
    requires Sound(w.ring) && Delivered(w.log) + Contents(w.ring) == Accepted(w.log)
    ensures var v := Go(w, t, c, alone); Sound(v.ring) && Delivered(v.log) + Contents(v.ring) == Accepted(v.log)
  {
    GoBytes(w, t, c, alone);
    TurnRing(w.ring, c);
    var chunk, rest := Chunk(w.ring, c), Contents(Go(w, t, c, alone).ring);
    if c.Reading? {
      BalanceTaken(Delivered(w.log), Contents(w.ring), Accepted(w.log), chunk, rest);
    } else {
      BalanceGiven(Delivered(w.log), Contents(w.ring), Accepted(w.log), chunk);
    }
  }

  // a call that is not done has emptied or filled the ring
  lemma GoWaits(w: World, t: nat, c: Call, alone: bool)
    requires Sound(w.ring) && (c.Writing? ==> c.written <= |c.data|) && Rest(Advanced(c, Chunk(w.ring, c))) != 0
    ensures MustWait(Go(w, t, c, alone).ring, c)
  {
    var chunk := Chunk(w.ring, c);
    if c.Reading? { TakeDrops(w.ring, |chunk|); } else { PutAppends(w.ring, chunk); }
  }

  lemma GoLog(w: World, t: nat, c: Call, alone: bool)
    requires Inv(w) && Known(w.log, t, c) && t !in w.calls
    ensures var v := Go(w, t, c, alone); LogOk(v.log) && forall u :: u in v.calls ==> Known(v.log, u, v.calls[u])
  {
    var chunk := Chunk(w.ring, c);
    var d := Advanced(c, chunk);
    var e := if c.Reading? then Took(t, chunk) else Gave(t, chunk);
    var ret := Returned(t, Value(d), alone);
    LogOn(w.log, e);
    KnownAdvances(w.ring, w.log, t, c);
    if Rest(d) == 0 || alone {
      ReturnFits(w.log + [e], t, d, alone);
      LogOn(w.log + [e], ret);
    }
    forall u | u in w.calls ensures Known(w.log + [e], u, w.calls[u]) && Known(w.log + [e] + [ret], u, w.calls[u]) {
      KnownOn(w.log, e, u, w.calls[u]);
      KnownOn(w.log + [e], ret, u, w.calls[u]);
    }
  }

  lemma GoKeeps(w: World, t: nat, c: Call, alone: bool)
    requires Inv(w) && Known(w.log, t, c) && t !in w.calls && Waiting.Enabled(w.wait, Waiting.Sleep(t, QUEUE))
    ensures Inv(Go(w, t, c, alone))
    ensures forall u :: u in w.calls ==> CanGoOn(Go(w, t, c, alone), u)
  {
    GoRing(w, t, c, alone);
    GoLog(w, t, c, alone);
    GoWait(w, t, c, alone);
    if Rest(Advanced(c, Chunk(w.ring, c))) != 0 { GoWaits(w, t, c, alone); }
  }

  // the step wakes everybody else
  lemma GoWait(w: World, t: nat, c: Call, alone: bool)
    requires WaitOk(w.wait, w.calls) && |w.ring.page| == PAGE_SIZE
    requires t !in w.calls && Waiting.Enabled(w.wait, Waiting.Sleep(t, QUEUE))
    ensures var v := Go(w, t, c, alone);
            && WaitOk(v.wait, v.calls) && (forall u :: u in w.calls ==> CanGoOn(v, u))
            && forall u :: u in v.calls && u !in w.calls ==> u == t
  {
    WakesAll(w.wait, w.calls);
    SleepsAlone(Waiting.Next(w.wait, Waiting.Wake(QUEUE)), w.calls, t, Advanced(c, Chunk(w.ring, c)));
    assert w.calls - {t} == w.calls;
  }

  // task t waits inside a call and has been woken
  ghost predicate CanGoOn(w: World, t: nat) { t in w.calls && Waiting.Enabled(w.wait, Waiting.Resume(t)) }

  lemma StartKeeps(w: World, t: nat, c: Call)
    requires Inv(w) && IsFresh(c)
    ensures var e := Began(t, c);
            && (t !in w.calls ==> Inv(w.(log := w.log + [e])) && Known(w.log + [e], t, c))
            && (Waiting.Enabled(w.wait, Waiting.Sleep(t, QUEUE)) ==> t !in w.calls)
  {
    var e := Began(t, c);
    LogOn(w.log, e);
    KnownBegins(w.log, t, c);
    forall u | u in w.calls && u != t ensures Known(w.log + [e], u, w.calls[u]) { KnownOn(w.log, e, u, w.calls[u]); }
  }

  lemma BeginKeeps(w: World, t: nat, c: Call, alone: bool)
    requires Inv(w) && IsFresh(c)
    ensures Inv(Begin(w, t, c, alone))
    ensures Waiting.Enabled(w.wait, Waiting.Sleep(t, QUEUE)) ==>
              t !in w.calls && forall u :: u in w.calls ==> CanGoOn(Begin(w, t, c, alone), u)
  {
    if Waiting.Enabled(w.wait, Waiting.Sleep(t, QUEUE)) {
      StartKeeps(w, t, c);
      GoKeeps(w.(log := w.log + [Began(t, c)]), t, c, alone);
    }
  }

  lemma BackKeeps(w: World, t: nat)
    requires Inv(w) && CanGoOn(w, t)
    ensures Inv(Back(w, t)) && Waiting.Enabled(Back(w, t).wait, Waiting.Sleep(t, QUEUE))
    ensures Known(Back(w, t).log, t, w.calls[t])
  {
    BackAlone(w, t);
  }

  lemma ResumeKeeps(w: World, t: nat, alone: bool)
    requires Inv(w)
    ensures Inv(Next(w, Resume(t, alone)))
    ensures CanGoOn(w, t) ==> forall u :: u in w.calls && u != t ==> CanGoOn(Next(w, Resume(t, alone)), u)
  {
    if CanGoOn(w, t) {
      BackKeeps(w, t);
      GoKeeps(Back(w, t), t, w.calls[t], alone);
    }
  }

  /** Every step keeps the bytes in order, each call's own bytes and value, and the reasons to
      sleep. */
  lemma NextKeeps(w: World, a: Action)
    requires Inv(w)
    ensures Inv(Next(w, a))
  {
    match a
    case Read(t, count, alone) => BeginKeeps(w, t, Reading(count, []), alone);
    case Write(t, data, alone) => BeginKeeps(w, t, Writing(data, 0), alone);
    case Resume(t, alone) => ResumeKeeps(w, t, alone);
    case Other(b) =>
      if !(b.Sleep? && b.q == QUEUE) && !(b.Resume? && b.t in w.calls) { OtherKeeps(w.wait, w.calls, b); }
  }

  function Run(w: World, actions: seq<Action>): (v: World)
    requires |w.ring.page| == PAGE_SIZE
    ensures |v.ring.page| == PAGE_SIZE
    decreases |actions|
  {
    if actions == [] then w else Run(Next(w, actions[0]), actions[1..])
  }

  lemma {:induction false} RunKeeps(w: World, actions: seq<Action>)
    requires Inv(w)
    ensures Inv(Run(w, actions))
    decreases |actions|
  {
    if actions != [] {
      NextKeeps(w, actions[0]);
      RunKeeps(Next(w, actions[0]), actions[1..]);
    }
  }

  // an empty pipe on which nobody waits, in any sound state of the wait queues
  ghost predicate Unused(w: World) {
    && Sound(w.ring) && w.ring.head == w.ring.tail && w.calls == map[] && w.log == []
    && Waiting.Inv(w.wait) && forall t :: Waiting.Inside(w.wait, t) ==> w.wait.tasks[t].place.queue != QUEUE
  }

  /** First in, first out: over any interleaving of readers and writers the bytes read, and then
      those between tail and head around the end of the page, are the bytes written. Every call
      that returned has moved as much as it says, in order, and all of it unless the other end
      was closed. */
  lemma PipeIsFifo(w: World, actions: seq<Action>)
    requires Unused(w)
    ensures var v := Run(w, actions);
            && Sound(v.ring) && Delivered(v.log) + Contents(v.ring) == Accepted(v.log)
            && forall k {:trigger ReturnOk(v.log, k)} :: 0 <= k < |v.log| && v.log[k].Returned? ==> ReturnOk(v.log, k)
  {
    RunKeeps(w, actions);
  }

  /** Nobody stalls: of all the tasks inside a call at most one is asleep, the head of the queue,
      and only a reader on an empty ring or a writer on a full one; all others can go on. */
  lemma NobodyStalls(w: World, actions: seq<Action>, t: nat)
    requires Unused(w) && t in Run(w, actions).calls
    ensures var v := Run(w, actions);
            if Waiting.Asleep(v.wait, t)
            then && (if v.calls[t].Reading? then Contents(v.ring) == [] else |Contents(v.ring)| == PAGE_SIZE - 1)
                 && forall u :: u in v.calls && u != t ==> CanGoOn(v, u)
            else CanGoOn(v, t)
  {
    RunKeeps(w, actions);
    var v := Run(w, actions);
    forall u | u in v.calls && Waiting.Asleep(v.wait, u) ensures |v.wait.heads| > 0 && v.wait.heads[QUEUE] == u {
      OnlyHeadSleeps(v.wait, v.calls, u);
    }
  }

  // task a.t may start the call, or go on in it
  ghost predicate Possible(w: World, a: Action) {
    match a
    case Read(t, _, _) => Waiting.Enabled(w.wait, Waiting.Sleep(t, QUEUE))
    case Write(t, _, _) => Waiting.Enabled(w.wait, Waiting.Sleep(t, QUEUE))
    case Resume(t, _) => CanGoOn(w, t)
    case Other(_) => false
  }

  /** Whatever another task does in a call wakes the sleeper, even if it moves no byte. */
  lemma EveryCallWakes(w: World, a: Action, u: nat)
    requires Inv(w) && Possible(w, a) && u in w.calls && u != a.t
    ensures CanGoOn(Next(w, a), u)
  {
    match a
    case Read(t, count, alone) => BeginKeeps(w, t, Reading(count, []), alone);
    case Write(t, data, alone) => BeginKeeps(w, t, Writing(data, 0), alone);
    case Resume(t, alone) => ResumeKeeps(w, t, alone);
  }

  // task t has moved all it asked for last
  predicate HasAll(log: seq<Event>, t: nat) {
    match Asked(log, t)
    case Reading(count, _) => |Moved(log, t)| == Max(count, 0)
    case Writing(data, _) => Moved(log, t) == data
  }

  lemma RestIff(log: seq<Event>, t: nat, c: Call)
    requires Known(log, t, c)
    ensures Rest(c) == 0 <==> HasAll(log, t)
    ensures Asked(log, t).Reading? == c.Reading?
  {
    if c.Writing? && c.written == |c.data| { assert c.data[..c.written] == c.data; }
  }

  lemma GoEnds(w: World, t: nat, c: Call, alone: bool)
    requires Inv(w) && Known(w.log, t, c) && t !in w.calls
    ensures var v := Go(w, t, c, alone);
            && Asked(v.log, t).Reading? == c.Reading?
            && (t in v.calls <==> !alone && !HasAll(v.log, t))
            && (!HasAll(v.log, t) ==> MustWait(v.ring, c))
            && v.log != [] && (t in v.calls <==> !v.log[|v.log| - 1].Returned?)
  {
    var chunk := Chunk(w.ring, c);
    var d := Advanced(c, chunk);
    var log := w.log + [if c.Reading? then Took(t, chunk) else Gave(t, chunk)];
    KnownAdvances(w.ring, w.log, t, c);
    KnownOn(log, Returned(t, Value(d), alone), t, d);
    RestIff(log, t, d);
    RestIff(log + [Returned(t, Value(d), alone)], t, d);
    if Rest(d) != 0 { GoWaits(w, t, c, alone); }
  }

  // how the step of task t in a call has left the world v
  ghost predicate Ends(v: World, t: nat, alone: bool)
    requires |v.ring.page| == PAGE_SIZE
  {
    && (HasAll(v.log, t) ||
        (if Asked(v.log, t).Reading? then Contents(v.ring) == [] else |Contents(v.ring)| == PAGE_SIZE - 1))
    && v.log != [] && (v.log[|v.log| - 1].Returned? <==> HasAll(v.log, t) || alone)
    && (t in v.calls <==> !v.log[|v.log| - 1].Returned?)
  }

  lemma BeginEnds(w: World, t: nat, c: Call, alone: bool)
    requires Inv(w) && IsFresh(c) && Waiting.Enabled(w.wait, Waiting.Sleep(t, QUEUE))
    ensures Ends(Begin(w, t, c, alone), t, alone)
  {
    StartKeeps(w, t, c);
    GoEnds(w.(log := w.log + [Began(t, c)]), t, c, alone);
  }

  lemma ResumeEnds(w: World, t: nat, alone: bool)
    requires Inv(w) && CanGoOn(w, t)
    ensures Ends(Next(w, Resume(t, alone)), t, alone)
  {
    BackKeeps(w, t);
    GoEnds(Back(w, t), t, w.calls[t], alone);
  }

  /** A call that runs stops only when it has moved all it asked for, or the ring is empty, or for a
      writer full; it returns exactly if it has moved all or the other end is closed, and else sleeps. */
  lemma CallEndsIff(w: World, a: Action)
    requires Inv(w) && Possible(w, a)
    ensures Ends(Next(w, a), a.t, a.alone)
  {
    match a
    case Read(t, count, alone) => BeginEnds(w, t, Reading(count, []), alone);
    case Write(t, data, alone) => BeginEnds(w, t, Writing(data, 0), alone);
    case Resume(t, alone) => ResumeEnds(w, t, alone);
  }

  // ----- the pipe in place ----------------------------------------------------------

  /** A pipe's inode with the wait queues of the kernel; calls holds the locals of the tasks that
      sleep in it. */
  class PipeInode {
    const buffer: PipeBuffer
    const queues: Waiting.TaskQueues
    var calls: map<nat, Call>
    ghost var log: seq<Event>

    ghost function Repr(): set<object> { {this, buffer, buffer.page, queues, queues.tasks, queues.heads} }

    ghost function State(): World
      reads Repr()
    {
      World(buffer.State(), queues.State(), calls, log)
    }

    ghost predicate Valid()
      reads Repr()
    {
      (buffer.page as object) != queues.heads && Inv(State())
    }

    constructor (size: nat, queueCount: nat)
      ensures Valid() && Unused(State()) && fresh(Repr())
    {
      buffer := new PipeBuffer();
      queues := new Waiting.TaskQueues(size, queueCount);
      calls := map[];
      log := [];
    }

    // the turns of the loop and wake_up; then the call returns, or sleep_on begins
    method Proceed(t: nat, c: Call, alone: bool)
      requires Valid() && Known(log, t, c) && t !in calls
      requires Waiting.Enabled(queues.State(), Waiting.Sleep(t, QUEUE))
      modifies Repr()
      ensures Valid() && State() == Go(old(State()), t, c, alone)
    {
      GoKeeps(State(), t, c, alone);
      var d := Move(t, c);
      Pause(t, d, alone);
    }

    // what follows the loop
    method Pause(t: nat, d: Call, alone: bool)
      requires Waiting.Inv(queues.State()) && Waiting.Enabled(queues.State(), Waiting.Sleep(t, QUEUE)) && t !in calls
      modifies this`calls, this`log, queues, queues.tasks, queues.heads
      ensures var wait := Waiting.Next(old(queues.State()), Waiting.Wake(QUEUE));
              if Rest(d) == 0 || alone
              then && queues.State() == wait && calls == old(calls) - {t}
                   && log == old(log) + [Returned(t, Value(d), alone)]
              else && queues.State() == Waiting.Next(wait, Waiting.Sleep(t, QUEUE)) && calls == old(calls)[t := d]
                   && log == old(log)
    {
      queues.WakeUp(QUEUE);
      if Rest(d) == 0 || alone {
        log := log + [Returned(t, Value(d), alone)];
        assert calls - {t} == calls;
      } else {
        queues.SleepOn(t, QUEUE);
        calls := calls[t := d];
      }
    }

    // the loop
    method Move(t: nat, c: Call) returns (d: Call)
      requires Valid() && Known(log, t, c)
      modifies this`log, buffer, buffer.page
      ensures var r := old(buffer.State()); var chunk := Chunk(r, c);
              && d == Advanced(c, chunk)
              && buffer.State() == (if c.Reading? then Take(r, |chunk|) else Put(r, chunk))
              && log == old(log) + [if c.Reading? then Took(t, chunk) else Gave(t, chunk)]
    {
      match c
      case Reading(count, moved) =>
        var chunk := buffer.ReadSome(count - |moved|);
        d := Reading(count, moved + chunk);
        log := log + [Took(t, chunk)];
      case Writing(data, written) =>
        var n := buffer.WriteSome(data, written);
        d := Writing(data, written + n);
        log := log + [Gave(t, data[written..written + n])];
    }

    /** read_pipe up to its first sleep, or its end. */
    method ReadPipe(t: nat, count: int, alone: bool)
      requires Valid() && Waiting.Enabled(queues.State(), Waiting.Sleep(t, QUEUE))
      modifies Repr()
      ensures Valid() && State() == Next(old(State()), Read(t, count, alone))
    {
      StartKeeps(State(), t, Reading(count, []));
      log := log + [Began(t, Reading(count, []))];
      Proceed(t, Reading(count, []), alone);
    }

    /** write_pipe up to its first sleep, or its end. */
    method WritePipe(t: nat, data: seq<Byte>, alone: bool)
      requires Valid() && Waiting.Enabled(queues.State(), Waiting.Sleep(t, QUEUE))
      modifies Repr()
      ensures Valid() && State() == Next(old(State()), Write(t, data, alone))
    {
      StartKeeps(State(), t, Writing(data, 0));
      log := log + [Began(t, Writing(data, 0))];
      Proceed(t, Writing(data, 0), alone);
    }

    /** Either of them from the return of sleep_on to the next sleep, or its end. */
    method GoOn(t: nat, alone: bool)
      requires Valid() && CanGoOn(State(), t)
      modifies Repr()
      ensures Valid() && State() == Next(old(State()), Resume(t, alone))
    {
      BackKeeps(State(), t);
      var c := calls[t];
      queues.WakeNext(t);
      calls := calls - {t};
      Proceed(t, c, alone);
    }
  }
}
