/** sleep_on and wake_up of kernel/sched.c. A wait queue is a head pointer; the rest of it is
    threaded through the local variable tmp of each sleep_on that has not yet returned. */
module WaitQueues {
  const NONE := -1

  /** Where a task stands: outside sleep_on, or inside it after the call of schedule, with its
      local tmp. */
  datatype Place = Out | In(queue: nat, tmp: int)

  datatype Task = Task(running: bool, place: Place)

  /** clock counts the calls of sleep_on, since is its value at a task's last one: history that
      no step reads. */
  datatype World = World(tasks: seq<Task>, heads: seq<int>, since: seq<nat>, clock: nat)

  datatype Action =
    | Sleep(t: nat, q: nat)   // sleep_on up to schedule
    | Resume(t: nat)          // schedule returns in sleep_on, and sleep_on returns
    | Wake(q: nat)            // wake_up

  predicate Inside(w: World, t: int) { 0 <= t < |w.tasks| && w.tasks[t].place.In? }

  predicate Asleep(w: World, t: int) { Inside(w, t) && !w.tasks[t].running }

  // a task other than 0 that runs outside sleep_on can sleep; task 0 would panic
  predicate Enabled(w: World, a: Action) {
    match a
    case Sleep(t, q) => 0 < t < |w.tasks| && w.tasks[t] == Task(true, Out) && q < |w.heads|
    case Resume(t) => Inside(w, t) && w.tasks[t].running
    case Wake(q) => q < |w.heads|
  }

  function SetRunning(tasks: seq<Task>, t: int): seq<Task> {
    if 0 <= t < |tasks| then tasks[t := tasks[t].(running := true)] else tasks
  }

  // an action that is not possible changes nothing
  function Next(w: World, a: Action): World {
    if !Enabled(w, a) then w else
    match a
    case Sleep(t, q) =>
      World(w.tasks[t := Task(false, In(q, w.heads[q]))], w.heads[q := t],
            if t < |w.since| then w.since[t := w.clock] else w.since, w.clock + 1)
    case Resume(t) =>
      w.(tasks := SetRunning(w.tasks[t := Task(true, Out)], w.tasks[t].place.tmp))
    case Wake(q) =>
      w.(tasks := SetRunning(w.tasks, w.heads[q]), heads := w.heads[q := NONE])
  }

  // ----- the invariant --------------------------------------------------------------

  predicate Link(w: World, u: int, t: int) { Inside(w, u) && w.tasks[u].place.tmp == t && t != NONE }

  // a pointer of queue q: nil, or a sleeper of q that came before the given time
  predicate Pointer(w: World, x: int, q: nat, time: nat) {
    x == NONE || (Asleep(w, x) && w.tasks[x].place.queue == q && x < |w.since| && w.since[x] < time)
  }

  predicate TmpSound(w: World, t: int)
    requires Inside(w, t)
  {
    && w.tasks[t].place.queue < |w.heads| && t < |w.since| && w.since[t] < w.clock
    && Pointer(w, w.tasks[t].place.tmp, w.tasks[t].place.queue, w.since[t])
  }

  ghost predicate PointersSound(w: World) {
    && |w.since| == |w.tasks|
    && (forall q :: 0 <= q < |w.heads| ==> Pointer(w, w.heads[q], q, w.clock))
    && (forall t {:trigger TmpSound(w, t)} :: Inside(w, t) ==> TmpSound(w, t))
  }

  /** Links never join: a task is named by one head or one tmp. */
  ghost predicate LinksApart(w: World) {
    && (forall u, v, t :: Link(w, u, t) && Link(w, v, t) ==> u == v)
    && (forall u, q :: 0 <= q < |w.heads| ==> !Link(w, u, w.heads[q]))
  }

  ghost predicate Named(w: World, t: int) {
    (exists q :: 0 <= q < |w.heads| && w.heads[q] == t) || (exists u :: Link(w, u, t))
  }

  ghost predicate Inv(w: World) {
    && PointersSound(w) && LinksApart(w)
    && (forall t :: Asleep(w, t) ==> Named(w, t))
    && (forall t :: 0 <= t < |w.tasks| && w.tasks[t].place.Out? ==> w.tasks[t].running)
  }

  lemma InitialInv(w: World)
    requires forall t :: 0 <= t < |w.tasks| ==> w.tasks[t] == Task(true, Out)
    requires forall q :: 0 <= q < |w.heads| ==> w.heads[q] == NONE
    requires |w.since| == |w.tasks|
    ensures Inv(w)
  {}

  lemma SleepKeeps(w: World, t: nat, q: nat)
    requires Inv(w) && Enabled(w, Sleep(t, q))
    ensures Inv(Next(w, Sleep(t, q)))
  {
    var v := Next(w, Sleep(t, q));
    assert Pointer(w, w.heads[q], q, w.clock);
    forall u | Inside(v, u) ensures TmpSound(v, u) { if u != t { assert TmpSound(w, u); } }
    forall u | Inside(w, u) ensures w.tasks[u].place.tmp != t { assert TmpSound(w, u); }
    assert forall x, y :: Link(v, x, y) <==> if x == t then y == w.heads[q] && y != NONE else Link(w, x, y);
    forall x | Asleep(v, x) ensures Named(v, x) {
      if x == t {
        assert v.heads[q] == t;
      } else {
        assert Named(w, x);
        if x == w.heads[q] {
          assert Link(v, t, x);
        } else if u :| Link(w, u, x) {
          assert Link(v, u, x);
        } else {
          var p :| 0 <= p < |w.heads| && w.heads[p] == x;
          assert v.heads[p] == x;
        }
      }
    }
  }

  lemma ResumeKeeps(w: World, t: nat)
    requires Inv(w) && Enabled(w, Resume(t))
    ensures Inv(Next(w, Resume(t)))
  {
    var v := Next(w, Resume(t));
    var y := w.tasks[t].place.tmp;
    assert y != NONE ==> Link(w, t, y);
    assert TmpSound(w, t);
    forall u | Inside(v, u) ensures TmpSound(v, u) {
      assert TmpSound(w, u) && (w.tasks[u].place.tmp == NONE || Link(w, u, w.tasks[u].place.tmp));
    }
    assert forall x, y :: Link(v, x, y) <==> x != t && Link(w, x, y);
    forall x | Asleep(v, x) ensures Named(v, x) {
      assert Named(w, x);
      assert x != w.tasks[t].place.tmp;
      if u :| Link(w, u, x) {
        assert Link(v, u, x);
      } else {
        var p :| 0 <= p < |w.heads| && w.heads[p] == x;
        assert v.heads[p] == x;
      }
    }
  }

  lemma WakeKeeps(w: World, q: nat)
    requires Inv(w) && Enabled(w, Wake(q))
    ensures Inv(Next(w, Wake(q)))
  {
    var v := Next(w, Wake(q));
    assert Pointer(w, w.heads[q], q, w.clock);
    forall u | Inside(v, u) ensures TmpSound(v, u) {
      assert TmpSound(w, u) && (w.tasks[u].place.tmp == NONE || Link(w, u, w.tasks[u].place.tmp));
    }
    assert forall x, y :: Link(v, x, y) <==> Link(w, x, y);
    forall x | Asleep(v, x) ensures Named(v, x) {
      assert Named(w, x);
      if u :| Link(w, u, x) {
        assert Link(v, u, x);
      } else {
        var p :| 0 <= p < |w.heads| && w.heads[p] == x;
        assert v.heads[p] == x;
      }
    }
  }

  lemma NextKeeps(w: World, a: Action)
    requires Inv(w)
    ensures Inv(Next(w, a))
  {
    if Enabled(w, a) {
      match a
      case Sleep(t, q) => SleepKeeps(w, t, q);
      case Resume(t) => ResumeKeeps(w, t);
      case Wake(q) => WakeKeeps(w, q);
    }
  }

  function Run(w: World, actions: seq<Action>): World
    decreases |actions|
  {
    if actions == [] then w else Run(Next(w, actions[0]), actions[1..])
  }

  lemma {:induction false} RunKeeps(w: World, actions: seq<Action>)
    requires Inv(w)
    ensures Inv(Run(w, actions))
    decreases |actions|
  {
    if actions != [] {
      NextKeeps(w, actions[0]);
      RunKeeps(Next(w, actions[0]), actions[1..]);
    }
  }

  // ----- nobody is lost -------------------------------------------------------------

  // path follows tmp links from its first task to its last
  ghost predicate Path(w: World, path: seq<nat>) {
    |path| > 0 && forall i :: 0 <= i < |path| - 1 ==> Link(w, path[i], path[i + 1])
  }

  // where a wake-up can start: the head of the queue, or a task woken but still inside sleep_on
  predicate Root(w: World, r: int, q: nat) {
    Inside(w, r) && w.tasks[r].place.queue == q && (w.tasks[r].running || (q < |w.heads| && w.heads[q] == r))
  }

  /** Every sleeper is reached through tmp links from the head of its queue or from a task
      already woken but not yet returned from sleep_on. */
  lemma {:induction false} NobodyIsLost(w: World, t: nat) returns (path: seq<nat>)
    requires Inv(w) && Asleep(w, t)
    ensures Path(w, path) && path[|path| - 1] == t && Root(w, path[0], w.tasks[t].place.queue)
    decreases w.clock - w.since[t]
  {
    assert Named(w, t);
    if q :| 0 <= q < |w.heads| && w.heads[q] == t {
      assert Pointer(w, w.heads[q], q, w.clock);
      return [t];
    }
    var u: nat :| Link(w, u, t);
    assert TmpSound(w, u);
    if w.tasks[u].running { return [u, t]; }
    var front := NobodyIsLost(w, u);
    path := front + [t];
    assert forall i :: 0 <= i < |path| - 1 ==> Link(w, path[i], path[i + 1]);
  }

  // ----- how a queue drains ---------------------------------------------------------

  predicate ChainLink(w: World, c: seq<nat>, i: nat)
    requires i < |c|
  {
    Inside(w, c[i]) && w.tasks[c[i]].place.tmp == if i + 1 < |c| then c[i + 1] else NONE
  }

  // c is everybody from x on, in the order in which they will be woken
  ghost predicate Chain(w: World, c: seq<nat>, x: int) {
    && x == (if c == [] then NONE else c[0])
    && (forall i {:trigger ChainLink(w, c, i)} :: 0 <= i < |c| ==> ChainLink(w, c, i))
  }

  lemma {:induction false} ChainExists(w: World, x: int, q: nat, time: nat) returns (c: seq<nat>)
    requires Inv(w) && Pointer(w, x, q, time)
    ensures Chain(w, c, x) && forall i :: 0 <= i < |c| ==> Asleep(w, c[i])
    decreases time
  {
    if x == NONE { return []; }
    assert TmpSound(w, x);
    var place := w.tasks[x].place;
    var rest := ChainExists(w, place.tmp, place.queue, w.since[x]);
    c := [x] + rest;
    forall i | 0 <= i < |c| ensures ChainLink(w, c, i) {
      if i > 0 { assert ChainLink(w, rest, i - 1); }
    }
  }

  lemma {:induction false} ChainUnique(w: World, c: seq<nat>, d: seq<nat>, x: int)
    requires Chain(w, c, x) && Chain(w, d, x)
    ensures c == d
    decreases |c|
  {
    if c != [] {
      assert ChainLink(w, c, 0) && ChainLink(w, d, 0);
      forall i | 0 <= i < |c| - 1 ensures ChainLink(w, c[1..], i) { assert ChainLink(w, c, i + 1); }
      forall i | 0 <= i < |d| - 1 ensures ChainLink(w, d[1..], i) { assert ChainLink(w, d, i + 1); }
      ChainUnique(w, c[1..], d[1..], w.tasks[x].place.tmp);
      assert c == [c[0]] + c[1..] && d == [d[0]] + d[1..];
    }
  }

  // a woken chain: its first task can run, the others still sleep
  ghost predicate Draining(w: World, c: seq<nat>) {
    forall i {:trigger ChainLink(w, c, i)} :: 0 <= i < |c| ==> ChainLink(w, c, i) && w.tasks[c[i]].running == (i == 0)
  }

  // what is left of a woken chain after an action
  function Left(c: seq<nat>, a: Action): seq<nat> { if c != [] && a == Resume(c[0]) then c[1..] else c }

  // an action moves a task of a draining chain only by resuming the chain's first task
  lemma DrainTask(w: World, a: Action, c: seq<nat>, i: nat)
    requires Inv(w) && Draining(w, c) && i < |c| && Enabled(w, a) && a != Resume(c[i])
    ensures ChainLink(w, c, i)
    ensures Next(w, a).tasks[c[i]] ==
            if a == Resume(c[0]) && i == 1 then w.tasks[c[i]].(running := true) else w.tasks[c[i]]
  {
    var x := c[i];
    assert ChainLink(w, c, i) && ChainLink(w, c, 0);
    assert i > 0 ==> ChainLink(w, c, i - 1) && Link(w, c[i - 1], x);
    match a
    case Sleep(t, q) =>
    case Resume(t) =>
      assert TmpSound(w, t);
      if w.tasks[t].place.tmp == x {
        assert Link(w, t, x);
        assert i > 0 && t == c[i - 1];
        assert w.tasks[t].running == (i - 1 == 0);
      } else if i == 1 {
        assert t != c[0];
      }
    case Wake(q) =>
      assert Pointer(w, w.heads[q], q, w.clock);
      assert w.heads[q] != x;
  }

  lemma DrainStep(w: World, a: Action, c: seq<nat>)
    requires Inv(w) && Draining(w, c)
    ensures Draining(Next(w, a), Left(c, a))
  {
    var v := Next(w, a);
    var d := Left(c, a);
    var off := |c| - |d|;
    assert c != [] ==> ChainLink(w, c, 0);
    if c != [] && Enabled(w, a) {
      forall i | 0 <= i < |c| && a == Resume(c[i]) ensures i == 0 { assert ChainLink(w, c, i); }
      forall i | 0 <= i < |d|
        ensures ChainLink(v, d, i) && v.tasks[d[i]].running == (i == 0)
      {
        assert d[i] == c[i + off] && ChainLink(w, c, i + off);
        DrainTask(w, a, c, i + off);
      }
    }
  }

  lemma {:induction false} ChainDescends(w: World, c: seq<nat>, i: nat, j: nat)
    requires Inv(w) && i < j < |c| && forall k {:trigger ChainLink(w, c, k)} :: 0 <= k < |c| ==> ChainLink(w, c, k)
    ensures c[i] < |w.since| && c[j] < |w.since| && w.since[c[j]] < w.since[c[i]]
    decreases j - i
  {
    assert ChainLink(w, c, i) && ChainLink(w, c, i + 1);
    assert TmpSound(w, c[i]);
    if i + 1 < j { ChainDescends(w, c, i + 1, j); }
  }

  function Drained(c: seq<nat>, actions: seq<Action>): seq<nat>
    decreases |actions|
  {
    if actions == [] then c else Drained(Left(c, actions[0]), actions[1..])
  }

  lemma {:induction false} DrainRun(w: World, actions: seq<Action>, c: seq<nat>)
    requires Inv(w) && Draining(w, c)
    ensures Draining(Run(w, actions), Drained(c, actions))
    decreases |actions|
  {
    if actions != [] {
      NextKeeps(w, actions[0]);
      DrainStep(w, actions[0], c);
      DrainRun(Next(w, actions[0]), actions[1..], Left(c, actions[0]));
    }
  }

  // a chain whose head has been woken
  lemma WokenDrains(w: World, q: nat, c: seq<nat>)
    requires Inv(w) && q < |w.heads| && Chain(w, c, w.heads[q])
    ensures Inv(Next(w, Wake(q))) && Draining(Next(w, Wake(q)), c)
  {
    var v := Next(w, Wake(q));
    assert Pointer(w, w.heads[q], q, w.clock);
    var d := ChainExists(w, w.heads[q], q, w.clock);
    ChainUnique(w, c, d, w.heads[q]);
    forall i, j | 0 <= i < j < |c| ensures c[i] != c[j] { ChainDescends(w, c, i, j); }
    forall i | 0 <= i < |c| ensures ChainLink(v, c, i) && v.tasks[c[i]].running == (i == 0) {
      assert ChainLink(w, c, i);
    }
    NextKeeps(w, Wake(q));
  }

  /** After wake_up the queue drains in order, whatever else happens: the first task not yet
      resumed can run, and each resumption of it makes the next one runnable. */
  lemma WakeDrains(w: World, q: nat, c: seq<nat>, actions: seq<Action>)
    requires Inv(w) && q < |w.heads| && Chain(w, c, w.heads[q])
    ensures Draining(Run(Next(w, Wake(q)), actions), Drained(c, actions))
  {
    WokenDrains(w, q, c);
    DrainRun(Next(w, Wake(q)), actions, c);
  }

  // whether task t returns from sleep_on during the actions
  ghost predicate Returns(w: World, actions: seq<Action>, t: nat)
    decreases |actions|
  {
    && actions != []
    && ((actions[0] == Resume(t) && Enabled(w, Resume(t))) || Returns(Next(w, actions[0]), actions[1..], t))
  }

  lemma {:induction false} DrainReturns(w: World, actions: seq<Action>, c: seq<nat>, i: nat)
    requires Inv(w) && Draining(w, c) && i < |c|
    ensures Returns(w, actions, c[i]) <==> i < |c| - |Drained(c, actions)|
    decreases |actions|
  {
    if actions != [] {
      var d := Left(c, actions[0]);
      NextKeeps(w, actions[0]);
      DrainStep(w, actions[0], c);
      assert ChainLink(w, c, 0) && ChainLink(w, c, i);
      if |c| - |d| <= i {
        DrainReturns(Next(w, actions[0]), actions[1..], d, i - (|c| - |d|));
      } else {
        DrainedShrinks(d, actions[1..]);
      }
    }
  }

  lemma {:induction false} DrainedShrinks(c: seq<nat>, actions: seq<Action>)
    ensures |Drained(c, actions)| <= |c| && Drained(c, actions) == c[|c| - |Drained(c, actions)|..]
    decreases |actions|
  {
    if actions != [] { DrainedShrinks(Left(c, actions[0]), actions[1..]); }
  }

  // the task in place k of a chain that drains from there on can run, and those behind it sleep
  lemma DrainingFrom(v: World, c: seq<nat>, k: nat)
    requires k <= |c| && Draining(v, c[k..])
    ensures k < |c| ==> Enabled(v, Resume(c[k]))
    ensures forall i :: k < i < |c| ==> Asleep(v, c[i])
  {
    var d := c[k..];
    forall i | k <= i < |c| ensures Inside(v, c[i]) && v.tasks[c[i]].running == (i == k) {
      assert ChainLink(v, d, i - k);
    }
  }

  /** How far a wake_up has come after any actions: the first k of the chain have returned from
      sleep_on, the next one can run, and those behind it still sleep. */
  lemma WakeCarries(w: World, q: nat, c: seq<nat>, actions: seq<Action>) returns (k: nat)
    requires Inv(w) && q < |w.heads| && Chain(w, c, w.heads[q])
    ensures var u := Next(w, Wake(q)); var v := Run(u, actions);
            && k <= |c| && (forall i :: 0 <= i < |c| ==> (Returns(u, actions, c[i]) <==> i < k))
            && (k < |c| ==> Enabled(v, Resume(c[k])))
            && (forall i :: k < i < |c| ==> Asleep(v, c[i]))
  {
    var u := Next(w, Wake(q));
    WokenDrains(w, q, c);
    DrainedShrinks(c, actions);
    k := |c| - |Drained(c, actions)|;
    forall i | 0 <= i < |c| ensures Returns(u, actions, c[i]) <==> i < k { DrainReturns(u, actions, c, i); }
    DrainRun(u, actions, c);
    DrainingFrom(Run(u, actions), c, k);
  }

  // the resumptions of the chain's tasks, each in its turn
  function Turns(c: seq<nat>): seq<Action> { seq(|c|, i requires 0 <= i < |c| => Resume(c[i])) }

  // whoever is out stays out while others return
  lemma {:induction false} OutStays(w: World, c: seq<nat>, t: nat)
    requires t < |w.tasks| && w.tasks[t] == Task(true, Out)
    ensures t < |Run(w, Turns(c)).tasks| && Run(w, Turns(c)).tasks[t] == Task(true, Out)
    decreases |c|
  {
    if c != [] {
      assert Turns(c)[1..] == Turns(c[1..]);
      OutStays(Next(w, Resume(c[0])), c[1..], t);
    }
  }

  lemma {:induction false} TurnsLetOut(w: World, c: seq<nat>, t: nat)
    requires Inv(w) && Draining(w, c) && t in c
    ensures t < |Run(w, Turns(c)).tasks| && Run(w, Turns(c)).tasks[t] == Task(true, Out)
    decreases |c|
  {
    assert ChainLink(w, c, 0);
    assert Turns(c)[1..] == Turns(c[1..]);
    NextKeeps(w, Resume(c[0]));
    DrainStep(w, Resume(c[0]), c);
    if t == c[0] {
      assert TmpSound(w, t);
      OutStays(Next(w, Resume(t)), c[1..], t);
    } else {
      TurnsLetOut(Next(w, Resume(c[0])), c[1..], t);
    }
  }

  /** One wake_up is enough for a whole queue: when everybody on it has had a turn, in their
      order, all of them run outside sleep_on. */
  lemma OneWakeIsEnough(w: World, q: nat, c: seq<nat>, t: nat)
    requires Inv(w) && q < |w.heads| && Chain(w, c, w.heads[q]) && t in c
    ensures var v := Run(w, [Wake(q)] + Turns(c)); t < |v.tasks| && v.tasks[t] == Task(true, Out)
  {
    assert ([Wake(q)] + Turns(c))[1..] == Turns(c);
    WokenDrains(w, q, c);
    TurnsLetOut(Next(w, Wake(q)), c, t);
  }

  // ----- nobody wakes early ---------------------------------------------------------

  // no action moves a sleeper
  lemma SleeperStays(w: World, a: Action, t: int)
    requires Asleep(w, t)
    ensures Inside(Next(w, a), t) && Next(w, a).tasks[t].place == w.tasks[t].place
  {}

  lemma SleepersStay(w: World, a: Action, x: int, c: seq<nat>)
    requires Chain(w, c, x) && forall i :: 0 <= i < |c| ==> Asleep(w, c[i])
    ensures Chain(Next(w, a), c, x)
  {
    forall i | 0 <= i < |c| ensures ChainLink(Next(w, a), c, i) {
      assert ChainLink(w, c, i);
      SleeperStays(w, a, c[i]);
    }
  }

  lemma ChainGrows(w: World, c: seq<nat>, t: nat)
    requires Chain(w, c, if c == [] then NONE else c[0])
    requires Inside(w, t) && w.tasks[t].place.tmp == if c == [] then NONE else c[0]
    ensures Chain(w, [t] + c, t)
  {
    forall i | 0 <= i < |c| + 1 ensures ChainLink(w, [t] + c, i) {
      if i > 0 { assert ChainLink(w, c, i - 1); }
    }
  }

  lemma QuietStep(w: World, a: Action, q: nat, c: seq<nat>) returns (d: seq<nat>)
    requires Inv(w) && q < |w.heads| && Chain(w, c, w.heads[q]) && a != Wake(q)
    ensures Chain(Next(w, a), d, Next(w, a).heads[q])
    ensures |d| >= |c| && d[|d| - |c|..] == c
  {
    assert Pointer(w, w.heads[q], q, w.clock);
    var e := ChainExists(w, w.heads[q], q, w.clock);
    ChainUnique(w, c, e, w.heads[q]);
    SleepersStay(w, a, w.heads[q], c);
    d := c;
    if Enabled(w, a) && a.Sleep? && a.q == q {
      ChainGrows(Next(w, a), c, a.t);
      d := [a.t] + c;
    }
  }

  /** As long as wake_up is not called on the queue, everybody who waits on it keeps waiting,
      in the same order; later sleepers come before them. */
  lemma {:induction false} NobodyWakesEarly(w: World, actions: seq<Action>, q: nat, c: seq<nat>) returns (d: seq<nat>)
    requires Inv(w) && q < |w.heads| && Chain(w, c, w.heads[q])
    requires Wake(q) !in actions
    ensures var v := Run(w, actions); q < |v.heads| && Chain(v, d, v.heads[q])
    ensures |d| >= |c| && d[|d| - |c|..] == c
    ensures forall i :: 0 <= i < |d| ==> Asleep(Run(w, actions), d[i])
    decreases |actions|
  {
    if actions == [] {
      assert Pointer(w, w.heads[q], q, w.clock);
      d := ChainExists(w, w.heads[q], q, w.clock);
      ChainUnique(w, c, d, w.heads[q]);
    } else {
      NextKeeps(w, actions[0]);
      var e := QuietStep(w, actions[0], q, c);
      d := NobodyWakesEarly(Next(w, actions[0]), actions[1..], q, e);
      assert d[|d| - |c|..] == d[|d| - |e|..][|e| - |c|..];
    }
  }

  // ----- the queues in place --------------------------------------------------------

  class TaskQueues {
    const tasks: array<Task>
    const heads: array<int>
    ghost var since: seq<nat>
    ghost var clock: nat

    constructor (size: nat, queues: nat)
      ensures fresh(tasks) && fresh(heads) && tasks.Length == size && heads.Length == queues
      ensures Inv(State())
      ensures forall t :: 0 <= t < size ==> tasks[t] == Task(true, Out)
      ensures forall q :: 0 <= q < queues ==> heads[q] == NONE
    {
      tasks := new Task[size](_ => Task(true, Out));
      heads := new int[queues](_ => NONE);
      since := seq<nat>(size, _ => 0);
      clock := 0;
      new;
      InitialInv(State());
    }

    ghost function State(): World
      reads this, tasks, heads
    {
      World(tasks[..], heads[..], since, clock)
    }

    /** sleep_on up to schedule; tmp stays in the task's place. */
    method SleepOn(current: nat, p: nat)
      requires Inv(State()) && Enabled(State(), Sleep(current, p))
      modifies this, tasks, heads
      ensures Inv(State()) && State() == Next(old(State()), Sleep(current, p))
    {
      NextKeeps(State(), Sleep(current, p));
      var tmp := heads[p];
      heads[p] := current;
      tasks[current] := Task(false, In(p, tmp));
      since := since[current := clock];
      clock := clock + 1;
    }

    /** sleep_on from schedule's return on. */
    method WakeNext(current: nat)
      requires Inv(State()) && Enabled(State(), Resume(current))
      modifies tasks
      ensures Inv(State()) && State() == Next(old(State()), Resume(current))
    {
      NextKeeps(State(), Resume(current));
      var tmp := tasks[current].place.tmp;
      assert TmpSound(State(), current);
      tasks[current] := Task(true, Out);
      if tmp != NONE { tasks[tmp] := tasks[tmp].(running := true); }
    }

    method WakeUp(p: nat)
      requires Inv(State()) && Enabled(State(), Wake(p))
      modifies tasks, heads
      ensures Inv(State()) && State() == Next(old(State()), Wake(p))
    {
      NextKeeps(State(), Wake(p));
      assert Pointer(State(), heads[p], p, clock);
      if heads[p] != NONE {
        tasks[heads[p]] := tasks[heads[p]].(running := true);
        heads[p] := NONE;
      }
    }
  }
}
