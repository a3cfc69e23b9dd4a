/** schedule and the accounting of do_timer in kernel/sched.c: counters, epochs and the choice
    of the next task. Task 0 is the idle task. */
module Scheduler {
  datatype State = Running | Interruptible | Uninterruptible | Zombie | Stopped

  datatype Task = Task(state: State, counter: int, priority: int)

  datatype Entry = None | Some(task: Task)

  predicate Runnable(tasks: seq<Entry>, i: int) { 0 < i < |tasks| && tasks[i].Some? && tasks[i].task.state == Running }

  // ----- the scheduler proper -------------------------------------------------------

  datatype Choice = Choice(next: nat, c: int)

  // the scan of the task table over the entries below i
  function Best(tasks: seq<Entry>, i: nat, soFar: Choice): (r: Choice)
    requires i <= |tasks|
    decreases i
  {
    if i <= 1 then soFar
    else if Runnable(tasks, i - 1) && tasks[i - 1].task.counter > soFar.c then
      Best(tasks, i - 1, Choice(i - 1, tasks[i - 1].task.counter))
    else Best(tasks, i - 1, soFar)
  }

  function Pick(tasks: seq<Entry>): Choice { Best(tasks, |tasks|, Choice(0, -1)) }

  function Recharged(t: Task): Task { t.(counter := t.counter / 2 + t.priority) }

  function Recharge(tasks: seq<Entry>): (r: seq<Entry>)
    ensures |r| == |tasks|
    ensures forall i :: 0 <= i < |tasks| ==>
      r[i] == if i > 0 && tasks[i].Some? then Some(Recharged(tasks[i].task)) else tasks[i]
  {
    seq(|tasks|, i requires 0 <= i < |tasks| =>
          if i > 0 && tasks[i].Some? then Some(Recharged(tasks[i].task)) else tasks[i])
  }

  // a task's priority is positive and its counter within its bounds
  predicate Bounded(e: Entry) { e.Some? ==> e.task.priority > 0 && 0 <= e.task.counter <= 2 * e.task.priority - 1 }

  ghost predicate AllBounded(tasks: seq<Entry>) { |tasks| > 0 && forall i :: 0 <= i < |tasks| ==> Bounded(tasks[i]) }

  lemma {:induction false} BestIsMaximal(tasks: seq<Entry>, i: nat, soFar: Choice)
    requires i <= |tasks| && soFar.c >= -1
    requires forall j :: Runnable(tasks, j) ==> tasks[j].task.counter >= 0
    ensures var r := Best(tasks, i, soFar);
            && r.c >= soFar.c
            && (r == soFar ||
                (0 < r.next < i && Runnable(tasks, r.next) && tasks[r.next].task.counter == r.c > soFar.c))
            && (forall j :: 0 < j < i && Runnable(tasks, j) ==> tasks[j].task.counter <= r.c)
            && (forall j :: r.next < j < i && r != soFar && Runnable(tasks, j) ==> tasks[j].task.counter < r.c)
    decreases i
  {
    if i > 1 {
      if Runnable(tasks, i - 1) && tasks[i - 1].task.counter > soFar.c {
        BestIsMaximal(tasks, i - 1, Choice(i - 1, tasks[i - 1].task.counter));
      } else {
        BestIsMaximal(tasks, i - 1, soFar);
      }
    }
  }

  /** The task chosen is runnable with the largest counter, the one with the larger number
      among equals; it is task 0 exactly when no other task can run. */
  lemma PickIsMaximal(tasks: seq<Entry>)
    requires AllBounded(tasks)
    ensures var r := Pick(tasks);
            && (r.next == 0 <==> forall j :: !Runnable(tasks, j))
            && (r.next == 0 ==> r.c == -1)
            && (r.next != 0 ==> Runnable(tasks, r.next) && tasks[r.next].task.counter == r.c)
            && (forall j :: Runnable(tasks, j) ==>
                tasks[j].task.counter < r.c || (tasks[j].task.counter == r.c && j <= r.next))
  {
    BestIsMaximal(tasks, |tasks|, Choice(0, -1));
  }

  lemma RechargeKeepsBounds(tasks: seq<Entry>)
    requires AllBounded(tasks)
    ensures AllBounded(Recharge(tasks))
    ensures forall i :: 0 < i < |tasks| && tasks[i].Some? ==> Recharge(tasks)[i].task.counter >= tasks[i].task.priority
  {}

  /** The loop of schedule ends after at most one recharge. */
  lemma OneRechargeIsEnough(tasks: seq<Entry>)
    requires AllBounded(tasks) && Pick(tasks).c == 0
    ensures Pick(Recharge(tasks)).c > 0
  {
    PickIsMaximal(tasks);
    RechargeKeepsBounds(tasks);
    PickIsMaximal(Recharge(tasks));
    var n := Pick(tasks).next;
    assert Runnable(Recharge(tasks), n);
  }

  datatype Scheduled = Scheduled(tasks: seq<Entry>, next: nat)

  predicate Exhausted(tasks: seq<Entry>) { Pick(tasks).c == 0 }

  // schedule
  function Schedule(tasks: seq<Entry>): Scheduled {
    if Exhausted(tasks) then Scheduled(Recharge(tasks), Pick(Recharge(tasks)).next)
    else Scheduled(tasks, Pick(tasks).next)
  }

  // ----- runs -----------------------------------------------------------------------

  datatype System = System(tasks: seq<Entry>, current: nat)

  datatype Action =
    | Tick(cpl: nat)              // do_timer; cpl is the privilege level it interrupts
    | Block(state: State)         // the current task stops running and calls schedule
    | Yield                       // the current task calls schedule
    | Wake(i: nat)
    | Fork(i: nat)                // the current task creates task i
    | Release(i: nat)             // task i, a zombie, is removed

  function SetTask(tasks: seq<Entry>, i: nat, e: Entry): seq<Entry> { if i < |tasks| then tasks[i := e] else tasks }

  // a tick off the counter of the current task, which stays at 0
  function Charge(tasks: seq<Entry>, i: nat): seq<Entry> {
    if i < |tasks| && tasks[i].Some?
    then
      var counter := tasks[i].task.counter - 1;
      tasks[i := Some(tasks[i].task.(counter := if counter > 0 then counter else 0))]
    else tasks
  }

  // the task table when schedule is entered, or after an action that does not enter it
  function Before(s: System, a: Action): seq<Entry> {
    match a
    case Tick(_) => Charge(s.tasks, s.current)
    case Block(state) =>
      if 0 < s.current < |s.tasks| && s.tasks[s.current].Some?
      then SetTask(s.tasks, s.current, Some(s.tasks[s.current].task.(state := state))) else s.tasks
    case Yield => s.tasks
    case Wake(i) =>
      if 0 < i < |s.tasks| && s.tasks[i].Some? then SetTask(s.tasks, i, Some(s.tasks[i].task.(state := Running)))
      else s.tasks
    case Fork(i) =>
      if 0 < i < |s.tasks| && s.tasks[i].None? && s.current < |s.tasks| && s.tasks[s.current].Some?
      then
        var priority := s.tasks[s.current].task.priority;
        SetTask(s.tasks, i, Some(Task(Running, priority, priority)))
      else s.tasks
    case Release(i) =>
      if 0 < i < |s.tasks| && i != s.current && s.tasks[i].Some? && s.tasks[i].task.state == Zombie
      then SetTask(s.tasks, i, None) else s.tasks
  }

  // whether the action enters schedule
  predicate Reschedules(s: System, a: Action) {
    match a
    case Tick(cpl) =>
      cpl != 0 && s.current < |s.tasks| && s.tasks[s.current].Some? && s.tasks[s.current].task.counter <= 1
    case Block(_) => s.current != 0
    case Yield => true
    case _ => false
  }

  function Next(s: System, a: Action): System {
    if Reschedules(s, a) then System(Schedule(Before(s, a)).tasks, Schedule(Before(s, a)).next)
    else System(Before(s, a), s.current)
  }

  // a recharge: the end of an epoch
  predicate Recharges(s: System, a: Action) { Reschedules(s, a) && Exhausted(Before(s, a)) }

  ghost predicate Inv(s: System) {
    AllBounded(s.tasks) && s.tasks[0].Some? && s.current < |s.tasks| && s.tasks[s.current].Some?
  }

  /** Every action keeps all counters between 0 and twice the priority less one. */
  lemma NextKeeps(s: System, a: Action)
    requires Inv(s)
    ensures Inv(Next(s, a)) && |Next(s, a).tasks| == |s.tasks|
  {
    var t := Before(s, a);
    assert AllBounded(t) && t[0].Some?;
    if Reschedules(s, a) {
      PickIsMaximal(t);
      if Exhausted(t) {
        RechargeKeepsBounds(t);
        PickIsMaximal(Recharge(t));
      }
    }
  }

  function Run(s: System, actions: seq<Action>): System
    decreases |actions|
  {
    if actions == [] then s else Run(Next(s, actions[0]), actions[1..])
  }

  lemma {:induction false} RunKeeps(s: System, actions: seq<Action>)
    requires Inv(s)
    ensures Inv(Run(s, actions))
    decreases |actions|
  {
    if actions != [] {
      NextKeeps(s, actions[0]);
      RunKeeps(Next(s, actions[0]), actions[1..]);
    }
  }

  // how many ticks of the run are charged to task i
  function Ticks(s: System, actions: seq<Action>, i: nat): nat
    decreases |actions|
  {
    if actions == [] then 0
    else (if actions[0].Tick? && s.current == i then 1 else 0) + Ticks(Next(s, actions[0]), actions[1..], i)
  }

  ghost predicate NoRecharge(s: System, actions: seq<Action>)
    decreases |actions|
  {
    actions == [] || (!Recharges(s, actions[0]) && NoRecharge(Next(s, actions[0]), actions[1..]))
  }

  // task i can run all along, also whenever schedule is entered
  ghost predicate StaysRunnable(s: System, actions: seq<Action>, i: nat)
    decreases |actions|
  {
    && Runnable(s.tasks, i)
    && (actions == [] || (Runnable(Before(s, actions[0]), i) && StaysRunnable(Next(s, actions[0]), actions[1..], i)))
  }

  // within an epoch a task pays for its ticks, and for nothing else
  lemma CounterFallsByTicks(s: System, a: Action, i: nat)
    requires Inv(s) && Runnable(s.tasks, i) && Runnable(Before(s, a), i)
    ensures Before(s, a)[i].task.counter >= s.tasks[i].task.counter - (if a.Tick? && s.current == i then 1 else 0)
    ensures Before(s, a)[i].task.priority == s.tasks[i].task.priority
  {}

  // the last action of an epoch finds task i with its counter used up
  lemma {:induction false} EpochUsesCounter(s: System, actions: seq<Action>, last: Action, i: nat)
    requires Inv(s) && NoRecharge(s, actions) && StaysRunnable(s, actions, i)
    requires Recharges(Run(s, actions), last) && Runnable(Before(Run(s, actions), last), i)
    ensures Ticks(s, actions + [last], i) >= s.tasks[i].task.counter
    decreases |actions|
  {
    if actions == [] {
      CounterFallsByTicks(s, last, i);
      NextKeeps(s, last);
      var t := Before(s, last);
      assert AllBounded(t);
      PickIsMaximal(t);
      assert Ticks(s, [last], i) ==
             (if last.Tick? && s.current == i then 1 else 0) + Ticks(Next(s, last), [last][1..], i);
      assert actions + [last] == [last];
    } else {
      CounterFallsByTicks(s, actions[0], i);
      NextKeeps(s, actions[0]);
      EpochUsesCounter(Next(s, actions[0]), actions[1..], last, i);
      assert (actions + [last])[1..] == actions[1..] + [last];
    }
  }

  /** Fairness: between two successive recharges a task that can run all along is charged at
      least as many ticks as its priority, so it has been the current task. */
  lemma EpochIsFair(s: System, first: Action, actions: seq<Action>, last: Action, i: nat)
    requires Inv(s) && Recharges(s, first)
    requires var t := Next(s, first); NoRecharge(t, actions) && StaysRunnable(t, actions, i)
    requires var u := Run(Next(s, first), actions); Recharges(u, last) && Runnable(Before(u, last), i)
    ensures var t := Next(s, first);
            && 0 < i < |t.tasks| && t.tasks[i].Some?
            && Ticks(t, actions + [last], i) >= t.tasks[i].task.priority > 0
  {
    NextKeeps(s, first);
    var b := Before(s, first);
    assert AllBounded(b);
    RechargeKeepsBounds(b);
    EpochUsesCounter(Next(s, first), actions, last, i);
  }

  // ----- what a tick costs, and when a slice of time ends ---------------------------

  /** A tick takes 1 off a positive counter of the current task and touches nothing else, unless it
      is a tick in user mode that leaves nothing: then schedule is entered, with the counter at 0. */
  lemma TickCosts(s: System, cpl: nat)
    requires Inv(s)
    ensures var i, t := s.current, Next(s, Tick(cpl));
            var c := s.tasks[i].task.counter;
            var charged := s.tasks[i := Some(s.tasks[i].task.(counter := if c > 0 then c - 1 else 0))];
            && (Reschedules(s, Tick(cpl)) <==> cpl != 0 && c <= 1)
            && (cpl == 0 || c > 1 ==> t == System(charged, i))
            && (cpl != 0 && c <= 1 ==> t == System(Schedule(charged).tasks, Schedule(charged).next))
  {}

  // the ticks among some actions
  function TicksIn(actions: seq<Action>): (n: nat)
    decreases |actions|
  {
    if actions == [] then 0 else (if actions[0].Tick? then 1 else 0) + TicksIn(actions[1..])
  }

  // whether schedule is entered in a run
  ghost predicate Enters(s: System, actions: seq<Action>)
    decreases |actions|
  {
    actions != [] && (Reschedules(s, actions[0]) || Enters(Next(s, actions[0]), actions[1..]))
  }

  // the current task does not give up the processor
  predicate GoesOn(a: Action) { !a.Block? && !a.Yield? }

  // action k is a tick in user mode, and the c-th tick or a later one
  predicate EndsSlice(actions: seq<Action>, k: int, c: int)
    requires 0 <= k < |actions|
  {
    actions[k].Tick? && actions[k].cpl != 0 && TicksIn(actions[..k + 1]) >= c
  }

  ghost predicate Ends(actions: seq<Action>, c: int) { exists k :: 0 <= k < |actions| && EndsSlice(actions, k, c) }

  lemma EndsSliceLater(actions: seq<Action>, k: nat, c: int)
    requires k + 1 < |actions|
    ensures EndsSlice(actions, k + 1, c) <==> EndsSlice(actions[1..], k, if actions[0].Tick? then c - 1 else c)
  {
    assert actions[..k + 2][1..] == actions[1..][..k + 1];
  }

  lemma TickHere(actions: seq<Action>, k: nat, c: int)
    requires k < |actions| && c <= 1
    ensures EndsSlice(actions, k, c) <==> actions[k].Tick? && actions[k].cpl != 0
    decreases k
  {
    if k > 0 {
      EndsSliceLater(actions, k - 1, c);
      TickHere(actions[1..], k - 1, if actions[0].Tick? then c - 1 else c);
    } else {
      assert actions[..1][1..] == [];
    }
  }

  lemma StepGoesOn(s: System, a: Action)
    requires Inv(s) && GoesOn(a) && !Reschedules(s, a)
    ensures var t, c := Next(s, a), s.tasks[s.current].task.counter;
            && Inv(t) && t.current == s.current
            && t.tasks[t.current].task.counter == (if a.Tick? && c > 0 then c - 1 else c)
  {
    NextKeeps(s, a);
  }

  /** A task that does not give up the processor has it until a tick in user mode that is at least
      the c-th, c being its counter: that tick, and no action before, enters schedule. */
  lemma {:induction false} SliceEndsIff(s: System, actions: seq<Action>)
    requires Inv(s) && forall k :: 0 <= k < |actions| ==> GoesOn(actions[k])
    ensures Enters(s, actions) <==>
            Ends(actions, s.tasks[s.current].task.counter)
    decreases |actions|
  {
    if actions != [] {
      var c, a, rest := s.tasks[s.current].task.counter, actions[0], actions[1..];
      assert GoesOn(a);
      EndsSliceNow(s, actions);
      if !Reschedules(s, a) {
        StepGoesOn(s, a);
        SliceEndsIff(Next(s, a), rest);
        SliceShifts(actions, c);
        assert Left(a, c) == Next(s, a).tasks[Next(s, a).current].task.counter;
      }
    }
  }

  lemma EndsSliceNow(s: System, actions: seq<Action>)
    requires Inv(s) && actions != [] && GoesOn(actions[0])
    ensures Reschedules(s, actions[0]) <==> EndsSlice(actions, 0, s.tasks[s.current].task.counter)
  {
    assert actions[..1] == [actions[0]] && [actions[0]][1..] == [];
    assert TicksIn(actions[..1]) == if actions[0].Tick? then 1 else 0;
  }

  // what is left of the counter after the first action
  function Left(a: Action, c: int): int { if a.Tick? && c > 0 then c - 1 else c }

  lemma SliceShifts(actions: seq<Action>, c: int)
    requires actions != [] && c >= 0 && !EndsSlice(actions, 0, c)
    ensures Ends(actions, c) <==> Ends(actions[1..], Left(actions[0], c))
  {
    var a, rest := actions[0], actions[1..];
    if k :| 0 <= k < |actions| && EndsSlice(actions, k, c) { LeftEnds(actions, k - 1, c); }
    if k :| 0 <= k < |rest| && EndsSlice(rest, k, Left(a, c)) { LeftEnds(actions, k, c); }
  }

  lemma LeftEnds(actions: seq<Action>, k: nat, c: int)
    requires k + 1 < |actions| && c >= 0
    ensures EndsSlice(actions, k + 1, c) <==> EndsSlice(actions[1..], k, Left(actions[0], c))
  {
    EndsSliceLater(actions, k, c);
    if c == 0 {
      TickHere(actions[1..], k, c);
      TickHere(actions[1..], k, c - 1);
    }
  }

  // ----- what a recharge gives ------------------------------------------------------

  /** A recharge comes only when some task can run and all that can have used their counters; it
      gives every task but the idle one its priority and half of what it had, rounded down. */
  lemma RechargeGives(s: System, a: Action, i: nat)
    requires Inv(s) && 0 < i < |s.tasks| && Before(s, a)[i].Some?
    ensures Recharges(s, a) <==>
            && Reschedules(s, a) && (exists j :: Runnable(Before(s, a), j))
            && forall j :: Runnable(Before(s, a), j) ==> Before(s, a)[j].task.counter == 0
    ensures Next(s, a).tasks[i].Some? && Next(s, a).tasks[0] == Before(s, a)[0]
    ensures var t, u := Before(s, a)[i].task, Next(s, a).tasks[i].task;
            && u.state == t.state && u.priority == t.priority
            && if Recharges(s, a) then 0 <= t.counter - 2 * (u.counter - u.priority) <= 1 else u == t
  {
    NextKeeps(s, a);
    var b := Before(s, a);
    assert AllBounded(b);
    PickIsMaximal(b);
  }

  // the number of recharges in a run
  function Epochs(s: System, actions: seq<Action>): (n: nat)
    decreases |actions|
  {
    if actions == [] then 0
    else (if Recharges(s, actions[0]) then 1 else 0) + Epochs(Next(s, actions[0]), actions[1..])
  }

  function Pow2(n: nat): (p: nat)
    ensures p > 0
  {
    if n == 0 then 1 else 2 * Pow2(n - 1)
  }

  // d halved n times, rounded up
  function Halved(d: nat, n: nat): nat { if n == 0 then d else Halved((d + 1) / 2, n - 1) }

  lemma {:induction false} HalvedIsQuotient(d: nat, n: nat)
    ensures Pow2(n) * (Halved(d, n) - 1) < d <= Pow2(n) * Halved(d, n)
    decreases n
  {
    if n > 0 {
      HalvedIsQuotient((d + 1) / 2, n - 1);
      Doubled(Pow2(n - 1), Halved(d, n));
      Doubled(Pow2(n - 1), Halved(d, n) - 1);
    }
  }

  lemma Doubled(p: int, x: int)
    ensures (2 * p) * x == 2 * (p * x)
  {}

  // task i sleeps, for whatever reason
  ghost predicate Sleeps(s: System, i: nat) {
    0 < i < |s.tasks| && i != s.current && s.tasks[i].Some? && s.tasks[i].task.state !in {Running, Zombie}
  }

  // what the counter of task i lacks
  ghost function Deficit(s: System, i: nat): nat
    requires Inv(s) && i < |s.tasks| && s.tasks[i].Some?
  {
    2 * s.tasks[i].task.priority - s.tasks[i].task.counter
  }

  lemma SleeperSeen(s: System, a: Action, i: nat)
    requires Inv(s) && Sleeps(s, i) && a != Wake(i)
    ensures AllBounded(Before(s, a)) && Before(s, a)[i] == s.tasks[i]
  {}

  lemma NotPicked(tasks: seq<Entry>, i: nat)
    requires AllBounded(tasks) && 0 < i < |tasks| && !Runnable(tasks, i)
    ensures Schedule(tasks).next != i
  {
    PickIsMaximal(tasks);
    RechargeKeepsBounds(tasks);
    PickIsMaximal(Recharge(tasks));
  }

  lemma SleeperStep(s: System, a: Action, i: nat)
    requires Inv(s) && Sleeps(s, i) && a != Wake(i)
    ensures var t := Next(s, a);
            && Inv(t) && Sleeps(t, i) && t.tasks[i].task.priority == s.tasks[i].task.priority
            && Deficit(t, i) == if Recharges(s, a) then (Deficit(s, i) + 1) / 2 else Deficit(s, i)
  {
    NextKeeps(s, a);
    SleeperSeen(s, a, i);
    NotPicked(Before(s, a), i);
  }

  lemma StepHalves(s: System, a: Action, t: System, i: nat, n: nat)
    requires Inv(s) && Sleeps(s, i) && a != Wake(i) && t == Next(s, a)
    ensures Inv(t) && Sleeps(t, i) && t.tasks[i].task.priority == s.tasks[i].task.priority
    ensures Halved(Deficit(t, i), n) == Halved(Deficit(s, i), (if Recharges(s, a) then 1 else 0) + n)
  {
    SleeperStep(s, a, i);
  }

  lemma {:induction false} GainsHalved(s: System, actions: seq<Action>, i: nat)
    requires Inv(s) && Sleeps(s, i) && Wake(i) !in actions
    ensures var t, n := Run(s, actions), Epochs(s, actions);
            && Inv(t) && Sleeps(t, i) && t.tasks[i].task.priority == s.tasks[i].task.priority
            && Deficit(t, i) == Halved(Deficit(s, i), n)
    decreases |actions|
  {
    if actions != [] {
      assert actions[0] in actions;
      var a, t, rest := actions[0], Next(s, actions[0]), actions[1..];
      StepHalves(s, a, t, i, Epochs(t, rest));
      GainsHalved(t, rest, i);
    }
  }

  /** While a task sleeps, its counter nears twice its priority: every recharge halves what it lacks,
      rounded up, and nothing else changes it. */
  lemma SleeperGains(s: System, actions: seq<Action>, i: nat)
    requires Inv(s) && Sleeps(s, i) && Wake(i) !in actions
    ensures var t, n := Run(s, actions), Epochs(s, actions);
            && Inv(t) && Sleeps(t, i) && t.tasks[i].task.priority == s.tasks[i].task.priority
            && Pow2(n) * (Deficit(t, i) - 1) < Deficit(s, i) <= Pow2(n) * Deficit(t, i)
  {
    GainsHalved(s, actions, i);
    HalvedIsQuotient(Deficit(s, i), Epochs(s, actions));
  }

  // ----- how long an epoch lasts ----------------------------------------------------

  // the counters of the tasks below n that can run, added up
  function Sum(tasks: seq<Entry>, n: nat): int
    requires n <= |tasks|
  {
    if n == 0 then 0 else Sum(tasks, n - 1) + if Runnable(tasks, n - 1) then tasks[n - 1].task.counter else 0
  }

  // a task other than the idle one is current, and has some of its counter left
  ghost predicate Busy(s: System) { Runnable(s.tasks, s.current) && s.tasks[s.current].task.counter > 0 }

  predicate UserTick(a: Action) { a.Tick? && a.cpl != 0 }

  lemma {:induction false} SumLess(tasks: seq<Entry>, i: nat, t: Task, n: nat)
    requires n <= |tasks| && Runnable(tasks, i) && t == tasks[i].task.(counter := tasks[i].task.counter - 1)
    ensures Sum(tasks[i := Some(t)], n) == Sum(tasks, n) - if i < n then 1 else 0
    decreases n
  {
    if n > 0 {
      SumLess(tasks, i, t, n - 1);
      assert Runnable(tasks[i := Some(t)], n - 1) <==> Runnable(tasks, n - 1);
    }
  }

  // what a task has left is part of the sum
  lemma {:induction false} SumHas(tasks: seq<Entry>, n: nat, i: nat)
    requires AllBounded(tasks) && n <= |tasks|
    ensures Sum(tasks, n) >= 0 && (i < n && Runnable(tasks, i) ==> Sum(tasks, n) >= tasks[i].task.counter)
    decreases n
  {
    if n > 0 {
      SumHas(tasks, n - 1, i);
      assert Bounded(tasks[n - 1]);
    }
  }

  lemma {:induction false} SumZero(tasks: seq<Entry>, n: nat)
    requires n <= |tasks| && forall j :: Runnable(tasks, j) ==> tasks[j].task.counter == 0
    ensures Sum(tasks, n) == 0
    decreases n
  {
    if n > 0 { SumZero(tasks, n - 1); }
  }

  // the counters are used up exactly when nothing is left of their sum
  lemma ExhaustedIff(tasks: seq<Entry>, i: nat)
    requires AllBounded(tasks) && Runnable(tasks, i)
    ensures Exhausted(tasks) <==> Sum(tasks, |tasks|) == 0
  {
    PickIsMaximal(tasks);
    SumHas(tasks, |tasks|, Pick(tasks).next);
    if Exhausted(tasks) {
      forall j | Runnable(tasks, j) ensures tasks[j].task.counter == 0 { assert Bounded(tasks[j]); }
      SumZero(tasks, |tasks|);
    }
  }

  // what schedule picks has some of its counter left
  lemma PicksBusy(tasks: seq<Entry>, i: nat)
    requires AllBounded(tasks) && Runnable(tasks, i)
    ensures var r := Schedule(tasks); Runnable(r.tasks, r.next) && r.tasks[r.next].task.counter > 0
  {
    PickIsMaximal(tasks);
    if Exhausted(tasks) {
      OneRechargeIsEnough(tasks);
      RechargeKeepsBounds(tasks);
      PickIsMaximal(Recharge(tasks));
    }
  }

  // a tick costs the sum 1, and ends the epoch exactly when that was all
  lemma UserTickStep(s: System, a: Action)
    requires Inv(s) && Busy(s) && UserTick(a)
    ensures Busy(Next(s, a)) && (Recharges(s, a) <==> Sum(s.tasks, |s.tasks|) == 1)
    ensures !Recharges(s, a) ==>
              && Sum(Next(s, a).tasks, |s.tasks|) == Sum(s.tasks, |s.tasks|) - 1
              && forall i :: Runnable(s.tasks, i) ==>
                   Runnable(Next(s, a).tasks, i) && Next(s, a).tasks[i].task.counter
                                                    == s.tasks[i].task.counter - if i == s.current then 1 else 0
  {
    var i := s.current;
    var b := Before(s, a);
    SumLess(s.tasks, i, s.tasks[i].task.(counter := s.tasks[i].task.counter - 1), |s.tasks|);
    SumHas(s.tasks, |s.tasks|, i);
    assert AllBounded(b) && Runnable(b, i);
    ExhaustedIff(b, i);
    PicksBusy(b, i);
  }

  /** Under ticks in user mode alone an epoch lasts as many ticks as the counters of all the tasks
      that can run add up to, not one more or less. */
  lemma {:induction false} EpochLength(s: System, actions: seq<Action>)
    requires Inv(s) && Busy(s) && forall k :: 0 <= k < |actions| ==> UserTick(actions[k])
    ensures NoRecharge(s, actions) <==> |actions| < Sum(s.tasks, |s.tasks|)
    decreases |actions|
  {
    SumHas(s.tasks, |s.tasks|, s.current);
    if actions != [] {
      assert UserTick(actions[0]);
      NextKeeps(s, actions[0]);
      UserTickStep(s, actions[0]);
      if !Recharges(s, actions[0]) { EpochLength(Next(s, actions[0]), actions[1..]); }
    }
  }

  // nobody else has anything left for the last tick
  lemma {:induction false} SumOfTwo(tasks: seq<Entry>, n: nat, i: nat, j: nat)
    requires AllBounded(tasks) && n <= |tasks| && i < j < n && Runnable(tasks, i) && Runnable(tasks, j)
    ensures Sum(tasks, n) >= tasks[i].task.counter + tasks[j].task.counter
    decreases n
  {
    assert Bounded(tasks[n - 1]);
    if j < n - 1 { SumOfTwo(tasks, n - 1, i, j); } else { SumHas(tasks, n - 1, i); }
  }

  /** Of these each task gets exactly its counter. */
  lemma {:induction false} EpochShares(s: System, actions: seq<Action>, i: nat)
    requires Inv(s) && Busy(s) && forall k :: 0 <= k < |actions| ==> UserTick(actions[k])
    requires |actions| == Sum(s.tasks, |s.tasks|) && Runnable(s.tasks, i)
    ensures Ticks(s, actions, i) == s.tasks[i].task.counter
    decreases |actions|
  {
    SumHas(s.tasks, |s.tasks|, s.current);
    assert UserTick(actions[0]);
    NextKeeps(s, actions[0]);
    UserTickStep(s, actions[0]);
    if Recharges(s, actions[0]) {
      if i < s.current { SumOfTwo(s.tasks, |s.tasks|, i, s.current); }
      if s.current < i { SumOfTwo(s.tasks, |s.tasks|, s.current, i); }
      assert Bounded(s.tasks[i]) && actions[1..] == [];
    } else {
      EpochShares(Next(s, actions[0]), actions[1..], i);
    }
  }

  // ----- the table as it runs -------------------------------------------------------

  class TaskTable {
    const tasks: array<Entry>
    var current: nat

    constructor (size: nat, idle: Task)
      requires size > 0 && Bounded(Some(idle))
      ensures fresh(tasks) && tasks.Length == size && current == 0 && Inv(System(tasks[..], current))
    {
      tasks := new Entry[size](_ => None);
      current := 0;
      new;
      tasks[0] := Some(idle);
    }

    ghost predicate Valid()
      reads this, tasks
    {
      Inv(System(tasks[..], current))
    }

    /** schedule: the scan, the recharge when all runnable tasks have used their counters, and
        the scan again. */
    method Dispatch()
      requires AllBounded(tasks[..]) && tasks[0].Some?
      modifies this, tasks
      ensures Valid() && Scheduled(tasks[..], current) == Schedule(old(tasks[..]))
    {
      ghost var before := tasks[..];
      ghost var recharged := false;
      PickIsMaximal(before);
      var c, next := -1, 0;
      while true
        invariant AllBounded(tasks[..]) && tasks[0].Some?
        invariant tasks[..] == if recharged then Recharge(before) else before
        invariant recharged ==> Exhausted(before)
        decreases if recharged then 0 else 1
      {
        c, next := -1, 0;
        var i := tasks.Length;
        while i > 1
          invariant 1 <= i <= tasks.Length
          invariant Best(tasks[..], i, Choice(next, c)) == Pick(tasks[..])
        {
          i := i - 1;
          if tasks[i].Some? && tasks[i].task.state == Running && tasks[i].task.counter > c {
            c, next := tasks[i].task.counter, i;
          }
        }
        if c != 0 { break; }
        if recharged { OneRechargeIsEnough(before); }
        RechargeAll();
        recharged := true;
        RechargeKeepsBounds(before);
      }
      PickIsMaximal(tasks[..]);
      current := next;
    }

    method RechargeAll()
      modifies tasks
      ensures tasks[..] == Recharge(old(tasks[..]))
    {
      var i := tasks.Length;
      while i > 1
        invariant 0 <= i <= tasks.Length
        invariant forall j :: 0 <= j < tasks.Length ==>
                    tasks[j] == if i <= j && 0 < j then Recharge(old(tasks[..]))[j] else old(tasks[j])
      {
        i := i - 1;
        if tasks[i].Some? { tasks[i] := Some(Recharged(tasks[i].task)); }
      }
    }

    /** The accounting at the end of do_timer. */
    method DoTimer(cpl: nat)
      requires Valid()
      modifies this, tasks
      ensures Valid() && System(tasks[..], current) == Next(System(old(tasks[..]), old(current)), Tick(cpl))
      ensures var i := old(current);
              var t := old(tasks[i].task);
              cpl == 0 || t.counter > 1 ==>
                && current == i
                && tasks[..] == old(tasks[..])[i := Some(t.(counter := if t.counter > 0 then t.counter - 1 else 0))]
    {
      ghost var s := System(tasks[..], current);
      NextKeeps(s, Tick(cpl));
      TickCosts(s, cpl);
      var t := tasks[current].task;
      t := t.(counter := t.counter - 1);
      if t.counter > 0 {
        tasks[current] := Some(t);
        assert tasks[..] == Charge(s.tasks, s.current);
        return;
      }
      tasks[current] := Some(t.(counter := 0));
      assert tasks[..] == Charge(s.tasks, s.current);
      if cpl == 0 { return; }
      Dispatch();
    }
  }
}
