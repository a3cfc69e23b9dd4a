/** The timer list of kernel/sched.c: add_timer and the part of do_timer that runs it. Each
    entry stores its ticks relative to the entry before it. */
module Timers {
  const NONE := -1
  const TIME_REQUESTS := 64

  /** A pending timer: its stored jiffies and its function, 0 for none. due is history: the tick
      it was asked for, which nothing reads. */
  datatype Timer = Timer(delta: int, fn: nat, due: int)

  ghost predicate Positive(list: seq<Timer>) { forall i :: 0 <= i < |list| ==> list[i].delta > 0 }

  // the ticks until the first n timers are over
  function Sum(list: seq<Timer>, n: nat): int
    requires n <= |list|
  {
    if n == 0 then 0 else Sum(list, n - 1) + list[n - 1].delta
  }

  // the place add_timer's loop stops at
  function Place(list: seq<Timer>, ticks: int): (k: nat)
    ensures k <= |list|
    decreases |list|
  {
    if list == [] || !(list[0].delta < ticks) then 0 else 1 + Place(list[1..], ticks - list[0].delta)
  }

  function Less(t: Timer, ticks: int): Timer { t.(delta := t.delta - ticks) }

  // what add_timer makes of the list
  function Insert(list: seq<Timer>, t: Timer): seq<Timer>
    decreases |list|
  {
    if list == [] || !(list[0].delta < t.delta) then [t] + list
    else [list[0]] + Insert(list[1..], Less(t, list[0].delta))
  }

  lemma {:induction false} SumTail(list: seq<Timer>, n: nat)
    requires 0 < n <= |list|
    ensures Sum(list, n) == list[0].delta + Sum(list[1..], n - 1)
  {
    if n > 1 { SumTail(list, n - 1); }
  }

  lemma {:induction false} SumAppend(list: seq<Timer>, tail: seq<Timer>, n: nat)
    requires n <= |list|
    ensures Sum(list + tail, n) == Sum(list, n)
  {
    if n > 0 { SumAppend(list, tail, n - 1); }
  }

  lemma {:induction false} SumGrows(list: seq<Timer>, m: nat, n: nat)
    requires Positive(list) && m <= n <= |list|
    ensures Sum(list, m) <= Sum(list, n)
    decreases n
  {
    if m < n { SumGrows(list, m, n - 1); }
  }

  lemma {:induction false} PlaceBounds(list: seq<Timer>, ticks: int)
    requires ticks > 0
    ensures var k := Place(list, ticks); Sum(list, k) < ticks && (k < |list| ==> ticks <= Sum(list, k + 1))
    decreases |list|
  {
    var k := Place(list, ticks);
    if k > 0 {
      PlaceBounds(list[1..], ticks - list[0].delta);
      SumTail(list, k);
      if k < |list| { SumTail(list, k + 1); }
    }
  }

  function InsertAt(s: seq<Timer>, k: nat, x: Timer): seq<Timer>
    requires k <= |s|
  {
    s[..k] + [x] + s[k..]
  }

  lemma InsertAtTail(list: seq<Timer>, k: nat, x: Timer)
    requires 0 < k <= |list|
    ensures [list[0]] + InsertAt(list[1..], k - 1, x) == InsertAt(list, k, x)
  {
    assert [list[0]] + list[1..][..k - 1] == list[..k] && list[1..][k - 1..] == list[k..];
  }

  /** The new timer is stored where it belongs, with what is left of its ticks; the timers
      around it keep what they store. */
  lemma {:induction false} InsertSplits(list: seq<Timer>, t: Timer)
    ensures var k := Place(list, t.delta); Insert(list, t) == InsertAt(list, k, Less(t, Sum(list, k)))
    decreases |list|
  {
    var k := Place(list, t.delta);
    if k > 0 {
      var d := list[0].delta;
      InsertSplits(list[1..], Less(t, d));
      SumTail(list, k);
      assert Less(Less(t, d), Sum(list[1..], k - 1)) == Less(t, Sum(list, k));
      InsertAtTail(list, k, Less(t, Sum(list, k)));
    }
  }

  lemma {:induction false} SumShifted(list: seq<Timer>, k: nat, t: Timer, n: nat)
    requires k < n <= |list| + 1 && k <= |list|
    ensures Sum(InsertAt(list, k, t), n) == Sum(list, n - 1) + t.delta
    decreases n
  {
    var m := InsertAt(list, k, t);
    if n == k + 1 {
      assert m == list[..k] + ([t] + list[k..]) && list == list[..k] + list[k..];
      SumAppend(list[..k], [t] + list[k..], k);
      SumAppend(list[..k], list[k..], k);
    } else {
      SumShifted(list, k, t, n - 1);
      assert m[n - 1] == list[n - 2];
    }
  }

  // the sums of a list with timer t put in at place k
  lemma SumInserted(list: seq<Timer>, k: nat, t: Timer, i: nat)
    requires k <= |list| && i <= |list|
    ensures var m := InsertAt(list, k, t);
            && m[i] == (if i < k then list[i] else if i == k then t else list[i - 1])
            && Sum(m, i + 1) == if i < k then Sum(list, i + 1) else Sum(list, i) + t.delta
  {
    if i < k {
      assert list == list[..k] + list[k..] && InsertAt(list, k, t) == list[..k] + ([t] + list[k..]);
      SumAppend(list[..k], [t] + list[k..], i + 1);
      SumAppend(list[..k], list[k..], i + 1);
    } else {
      SumShifted(list, k, t, i + 1);
    }
  }

  // the sums after timer t has been put in at place k, where those before reach its ticks
  lemma InsertedSums(list: seq<Timer>, t: Timer, k: nat, m: seq<Timer>, i: nat)
    requires Positive(list) && k <= |list| && i <= |list| && m == InsertAt(list, k, Less(t, Sum(list, k)))
    requires Sum(list, k) < t.delta && (k < |list| ==> t.delta <= Sum(list, k + 1))
    ensures |m| == |list| + 1 && m[i].delta > 0
    ensures i == k ==> m[i] == Less(t, Sum(list, k)) && Sum(m, i + 1) == t.delta
    ensures i < k ==> m[i] == list[i] && Sum(m, i + 1) == Sum(list, i + 1) < t.delta
    ensures i > k ==> m[i] == list[i - 1] && Sum(m, i + 1) == Sum(list, i) + m[k].delta >= t.delta + m[k].delta
  {
    SumInserted(list, k, Less(t, Sum(list, k)), i);
    if i < k { SumGrows(list, i + 1, k); }
    if i > k { SumGrows(list, k + 1, i); }
  }

  /** A new timer's stored ticks sum up to those asked for; a timer before it is not moved, and
      one after it is moved back by exactly what the new one stores. */
  lemma InsertSums(list: seq<Timer>, t: Timer, i: nat)
    requires Positive(list) && t.delta > 0 && i <= |list|
    ensures var k, m := Place(list, t.delta), Insert(list, t);
            && |m| == |list| + 1 && m[i].delta > 0
            && (i == k ==> m[i] == Less(t, Sum(list, k)) && Sum(m, i + 1) == t.delta)
            && (i < k ==> m[i] == list[i] && Sum(m, i + 1) == Sum(list, i + 1) < t.delta)
            && (i > k ==> m[i] == list[i - 1] && Sum(m, i + 1) == Sum(list, i) + m[k].delta >= t.delta + m[k].delta)
  {
    PlaceBounds(list, t.delta);
    InsertSplits(list, t);
    InsertedSums(list, t, Place(list, t.delta), Insert(list, t), i);
  }

  // ----- a tick ---------------------------------------------------------------------

  // how many timers the loop of do_timer takes off
  function Expired(list: seq<Timer>): (n: nat)
    ensures n <= |list|
    decreases |list|
  {
    if list == [] || list[0].delta > 0 then 0 else 1 + Expired(list[1..])
  }

  function Counted(list: seq<Timer>): (r: seq<Timer>)
    ensures |r| == |list|
  {
    if list == [] then [] else [Less(list[0], 1)] + list[1..]
  }

  /** As all stored ticks are positive, at most one function is called per tick, the first, and
      exactly when its last tick is over. */
  lemma TickFiresOne(list: seq<Timer>)
    requires Positive(list)
    ensures Expired(Counted(list)) == if list != [] && list[0].delta == 1 then 1 else 0
    ensures Positive(Counted(list)[Expired(Counted(list))..])
  {
    if list != [] {
      assert Counted(list)[1..] == list[1..];
    }
  }

  lemma {:induction false} SumCounted(list: seq<Timer>, n: nat)
    requires 0 < n <= |list|
    ensures Sum(Counted(list), n) == Sum(list, n) - 1
    decreases n
  {
    if n > 1 { SumCounted(list, n - 1); }
  }

  // ----- runs -----------------------------------------------------------------------

  datatype Request = Request(fn: nat, due: int)

  datatype Call = Call(request: Request, at: int)

  /** now counts ticks; called is what was called so far. */
  datatype World = World(list: seq<Timer>, now: int, called: seq<Call>, panicked: bool)

  datatype Action = Add(jiffies: int, fn: nat) | Tick

  function Calls(list: seq<Timer>, at: int): (c: seq<Call>)
    ensures |c| == |list| && forall i :: 0 <= i < |list| ==> c[i] == Call(Request(list[i].fn, list[i].due), at)
  {
    seq(|list|, i requires 0 <= i < |list| => Call(Request(list[i].fn, list[i].due), at))
  }

  // add_timer
  function AddTimer(w: World, jiffies: int, fn: nat): World {
    if fn == 0 then w
    else if jiffies <= 0 then w.(called := w.called + [Call(Request(fn, w.now + jiffies), w.now)])
    else if |w.list| >= TIME_REQUESTS then w.(panicked := true)
    else w.(list := Insert(w.list, Timer(jiffies, fn, w.now + jiffies)))
  }

  // the timer part of do_timer
  function DoTick(w: World): World {
    var n := Expired(Counted(w.list));
    World(Counted(w.list)[n..], w.now + 1, w.called + Calls(Counted(w.list)[..n], w.now + 1), w.panicked)
  }

  // a panic ends the run
  function Next(w: World, a: Action): World {
    if w.panicked then w else
    match a
    case Add(jiffies, fn) => AddTimer(w, jiffies, fn)
    case Tick => DoTick(w)
  }

  ghost predicate NoneEarly(w: World) {
    && (forall i :: 0 <= i < |w.list| ==> w.now + Sum(w.list, i + 1) >= w.list[i].due)
    && (forall i :: 0 <= i < |w.called| ==> w.called[i].at >= w.called[i].request.due)
  }

  ghost predicate Inv(w: World) {
    |w.list| <= TIME_REQUESTS && Positive(w.list) && NoneEarly(w) && forall i :: 0 <= i < |w.list| ==> w.list[i].fn != 0
  }

  lemma AddKeeps(w: World, jiffies: int, fn: nat)
    requires Inv(w)
    ensures Inv(AddTimer(w, jiffies, fn))
  {
    if fn != 0 && jiffies > 0 && |w.list| < TIME_REQUESTS {
      var t := Timer(jiffies, fn, w.now + jiffies);
      var m := Insert(w.list, t);
      InsertSums(w.list, t, 0);
      forall i | 0 <= i < |m| ensures m[i].delta > 0 && m[i].fn != 0 && w.now + Sum(m, i + 1) >= m[i].due {
        InsertSums(w.list, t, i);
        InsertSums(w.list, t, Place(w.list, jiffies));
      }
    }
  }

  lemma CountedRest(list: seq<Timer>)
    ensures Counted(list)[0..] == Counted(list) && (list != [] ==> Counted(list)[1..] == list[1..])
  {}

  // the i-th timer that stays is one tick nearer
  lemma TickNears(list: seq<Timer>, i: nat)
    requires Positive(list)
    requires var n := Expired(Counted(list)); n <= i < |list|
    ensures var n := Expired(Counted(list));
            && n <= 1 && Counted(list)[n..][i - n].due == list[i].due && Counted(list)[n..][i - n].fn == list[i].fn
            && Sum(Counted(list)[n..], i - n + 1) == Sum(list, i + 1) - 1
  {
    TickFiresOne(list);
    CountedRest(list);
    SumCounted(list, i + 1);
    if Expired(Counted(list)) == 1 { SumTail(Counted(list), i + 1); }
  }

  // the timers that stay after a tick are not early
  lemma StaysNotEarly(w: World, i: nat)
    requires Inv(w) && i < |DoTick(w).list|
    ensures var v := DoTick(w); v.now + Sum(v.list, i + 1) >= v.list[i].due && v.list[i].fn != 0
  {
    var n := Expired(Counted(w.list));
    TickNears(w.list, i + n);
    assert w.list[i + n].fn != 0;
  }

  // nor is the one that goes
  lemma GoesNotEarly(w: World)
    requires Inv(w) && Expired(Counted(w.list)) > 0
    ensures w.list != [] && w.now + 1 >= w.list[0].due
  {
    TickFiresOne(w.list);
    assert w.now + Sum(w.list, 0 + 1) >= w.list[0].due;
    assert Sum(w.list, 1) == Sum(w.list, 0) + w.list[0].delta;
  }

  lemma TickKeeps(w: World)
    requires Inv(w)
    ensures Inv(DoTick(w))
  {
    TickFiresOne(w.list);
    var v := DoTick(w);
    forall i | 0 <= i < |v.list| ensures v.now + Sum(v.list, i + 1) >= v.list[i].due && v.list[i].fn != 0 {
      StaysNotEarly(w, i);
    }
    if Expired(Counted(w.list)) > 0 { GoesNotEarly(w); }
  }

  lemma NextKeeps(w: World, a: Action)
    requires Inv(w)
    ensures Inv(Next(w, a))
  {
    if !w.panicked {
      if a.Add? { AddKeeps(w, a.jiffies, a.fn); } else { TickKeeps(w); }
    }
  }

  function Run(w: World, actions: seq<Action>): World
    decreases |actions|
  {
    if actions == [] then w else Run(Next(w, actions[0]), actions[1..])
  }

  lemma {:induction false} RunKeeps(w: World, actions: seq<Action>)
    requires Inv(w)
    ensures Inv(Run(w, actions))
    decreases |actions|
  {
    if actions != [] {
      NextKeeps(w, actions[0]);
      RunKeeps(Next(w, actions[0]), actions[1..]);
    }
  }

  // ----- each request once ----------------------------------------------------------

  function RequestOf(t: Timer): Request { Request(t.fn, t.due) }

  function One(b: bool): nat { if b then 1 else 0 }

  // how often add_timer accepts request r in one action
  function AskedBy(w: World, a: Action, r: Request): nat {
    One(a.Add? && a.fn != 0 && !Next(w, a).panicked && r == Request(a.fn, w.now + a.jiffies))
  }

  function Asked(w: World, actions: seq<Action>, r: Request): nat
    decreases |actions|
  {
    if actions == [] then 0 else AskedBy(w, actions[0], r) + Asked(Next(w, actions[0]), actions[1..], r)
  }

  // how often r is pending
  function Pending(list: seq<Timer>, r: Request): nat
    decreases |list|
  {
    if list == [] then 0 else One(RequestOf(list[0]) == r) + Pending(list[1..], r)
  }

  // how often r was answered by a call
  function Answered(calls: seq<Call>, r: Request): nat
    decreases |calls|
  {
    if calls == [] then 0 else Answered(calls[..|calls| - 1], r) + One(calls[|calls| - 1].request == r)
  }

  function Known(w: World, r: Request): nat { Pending(w.list, r) + Answered(w.called, r) }

  lemma {:induction false} InsertKnown(list: seq<Timer>, t: Timer, r: Request)
    ensures Pending(Insert(list, t), r) == Pending(list, r) + One(RequestOf(t) == r)
    decreases |list|
  {
    if list != [] && list[0].delta < t.delta {
      InsertKnown(list[1..], Less(t, list[0].delta), r);
    } else {
      assert ([t] + list)[1..] == list;
    }
  }

  lemma CallKnown(calls: seq<Call>, c: Call, r: Request)
    ensures Answered(calls + [c], r) == Answered(calls, r) + One(c.request == r)
  {
    assert (calls + [c])[..|calls|] == calls;
  }

  // the calls of the first n timers, the first of them made
  lemma CallsTail(list: seq<Timer>, calls: seq<Call>, at: int, n: nat)
    requires 0 < n <= |list|
    ensures calls + Calls(list[..n], at) == calls + [Call(RequestOf(list[0]), at)] + Calls(list[1..][..n - 1], at)
    ensures list[1..][n - 1..] == list[n..]
  {}

  lemma {:induction false} ExpireKnown(list: seq<Timer>, calls: seq<Call>, at: int, r: Request)
    ensures var n := Expired(list);
            Pending(list[n..], r) + Answered(calls + Calls(list[..n], at), r) == Pending(list, r) + Answered(calls, r)
    decreases |list|
  {
    var n := Expired(list);
    if n == 0 {
      assert list[0..] == list && calls + Calls(list[..0], at) == calls;
    } else {
      var c := Call(RequestOf(list[0]), at);
      ExpireKnown(list[1..], calls + [c], at, r);
      CallKnown(calls, c, r);
      CallsTail(list, calls, at, n);
    }
  }

  lemma TickKnown(w: World, r: Request)
    ensures Known(DoTick(w), r) == Known(w, r)
  {
    ExpireKnown(Counted(w.list), w.called, w.now + 1, r);
    assert w.list != [] ==> Counted(w.list)[1..] == w.list[1..];
  }

  lemma AddKnown(w: World, jiffies: int, fn: nat, r: Request)
    requires !w.panicked
    ensures Known(AddTimer(w, jiffies, fn), r) == Known(w, r) + AskedBy(w, Add(jiffies, fn), r)
  {
    if jiffies <= 0 {
      CallKnown(w.called, Call(Request(fn, w.now + jiffies), w.now), r);
    } else {
      InsertKnown(w.list, Timer(jiffies, fn, w.now + jiffies), r);
    }
  }

  lemma StepKnown(w: World, a: Action, r: Request)
    requires !w.panicked
    ensures Known(Next(w, a), r) == Known(w, r) + AskedBy(w, a, r)
  {
    if a.Tick? { TickKnown(w, r); } else { AddKnown(w, a.jiffies, a.fn, r); }
  }

  lemma {:induction false} RunKnown(w: World, actions: seq<Action>, r: Request)
    ensures Known(Run(w, actions), r) == Known(w, r) + Asked(w, actions, r)
    decreases |actions|
  {
    if actions != [] {
      if !w.panicked { StepKnown(w, actions[0], r); }
      RunKnown(Next(w, actions[0]), actions[1..], r);
    }
  }

  const START := World([], 0, [], false)

  /** Over any run: a request is pending or called as often as it was made, never more, and
      nothing is called before it is due. */
  lemma NeverEarlyNeverTwice(actions: seq<Action>, r: Request)
    ensures var w := Run(START, actions);
            && Pending(w.list, r) + Answered(w.called, r) == Asked(START, actions, r)
            && (forall i :: 0 <= i < |w.called| ==> w.called[i].at >= w.called[i].request.due)
            && (forall i :: 0 <= i < |w.list| ==> w.now + Sum(w.list, i + 1) >= w.list[i].due)
  {
    assert Inv(START);
    RunKnown(START, actions, r);
    RunKeeps(START, actions);
  }

  // ----- without new timers, all expire on time -------------------------------------

  function Ticks(n: nat): seq<Action> { seq(n, _ => Tick) }

  lemma RunTick(w: World, n: nat)
    requires !w.panicked && n > 0
    ensures Run(w, Ticks(n)) == if n == 1 then DoTick(w) else Run(DoTick(w), Ticks(n - 1))
  {
    assert Ticks(0) == [];
    assert Ticks(n)[1..] == Ticks(n - 1) && Ticks(n)[0] == Tick;
  }

  // the call after the first k is the last, and answers request r
  predicate EndsWith(calls: seq<Call>, k: nat, r: Request, at: int) { |calls| == k + 1 && calls[k] == Call(r, at) }

  // the timer whose last tick it is goes with the tick
  lemma LastTick(w: World, i: nat)
    requires Inv(w) && i < |w.list| && Expired(Counted(w.list)) > i
    ensures Sum(w.list, i + 1) == 1 && i == 0
    ensures DoTick(w).called == w.called + [Call(Request(w.list[0].fn, w.list[0].due), w.now + 1)]
  {
    TickFiresOne(w.list);
    assert Sum(w.list, 1) == Sum(w.list, 0) + w.list[0].delta;
  }

  // any other timer moves on
  lemma OtherTick(w: World, v: World, i: nat) returns (j: nat)
    requires Inv(w) && v == DoTick(w) && Expired(Counted(w.list)) <= i < |w.list|
    ensures j < |v.list| && v.list[j].fn == w.list[i].fn && v.list[j].due == w.list[i].due
    ensures Sum(v.list, j + 1) == Sum(w.list, i + 1) - 1 > 0
    ensures |v.called| + j == |w.called| + i && v.now == w.now + 1
  {
    TickFiresOne(w.list);
    TickNears(w.list, i);
    SumGrows(w.list, 1, i + 1);
    assert Sum(w.list, 1) == Sum(w.list, 0) + w.list[0].delta;
    j := i - Expired(Counted(w.list));
    SumGrows(v.list, 1, j + 1);
    assert Sum(v.list, 1) == Sum(v.list, 0) + v.list[0].delta;
  }

  /** As long as none is added, the i-th timer is called exactly when its ticks are over. */
  lemma ExpiresOnTime(w: World, i: nat, n: nat)
    requires Inv(w) && !w.panicked && i < |w.list| && n == Sum(w.list, i + 1)
    ensures EndsWith(Run(w, Ticks(n)).called, |w.called| + i, RequestOf(w.list[i]), w.now + n)
  {
    var v, j, k := w, i, 0;
    while Expired(Counted(v.list)) <= j
      invariant Inv(v) && !v.panicked && 0 <= j < |v.list| && RequestOf(v.list[j]) == RequestOf(w.list[i])
      invariant 0 <= k <= n && Sum(v.list, j + 1) == n - k && v.now == w.now + k && |v.called| + j == |w.called| + i
      invariant Run(w, Ticks(n)) == Run(v, Ticks(n - k))
      decreases n - k
    {
      j := OtherTick(v, DoTick(v), j);
      RunTick(v, n - k);
      TickKeeps(v);
      v, k := DoTick(v), k + 1;
    }
    LastTick(v, j);
    RunTick(v, n - k);
  }

  // ----- when a timer slips ----------------------------------------------------------

  /** Where a request stands: it waits as the j-th timer, or was answered by the c-th call. */
  datatype Spot = Waits(j: nat) | Answer(c: nat)

  predicate IsSpot(w: World, p: Spot) { if p.Waits? then p.j < |w.list| else p.c < |w.called| }

  function RequestAt(w: World, p: Spot): Request
    requires IsSpot(w, p)
  {
    if p.Waits? then RequestOf(w.list[p.j]) else w.called[p.c].request
  }

  // the tick at which it is called, if no timer is added before
  function CallTime(w: World, p: Spot): int
    requires IsSpot(w, p)
  {
    if p.Waits? then w.now + Sum(w.list, p.j + 1) else w.called[p.c].at
  }

  // add_timer puts a timer into the list
  predicate Inserts(w: World, a: Action) {
    !w.panicked && a.Add? && a.fn != 0 && a.jiffies > 0 && |w.list| < TIME_REQUESTS
  }

  // it asks for at most the ticks that the timer has left
  predicate Delays(w: World, p: Spot, a: Action)
    requires IsSpot(w, p)
  {
    p.Waits? && Inserts(w, a) && a.jiffies <= Sum(w.list, p.j + 1)
  }

  // where the request stands after an action
  function Moved(w: World, p: Spot, a: Action): Spot {
    if p.Answer? || w.panicked then p
    else if a.Tick? then
      var n := Expired(Counted(w.list));
      if p.j < n then Answer(|w.called| + p.j) else Waits(p.j - n)
    else if Inserts(w, a) && Place(w.list, a.jiffies) <= p.j then Waits(p.j + 1)
    else p
  }

  /** One new timer leaves the ticks of the i-th alone if and only if it asks for more. */
  lemma SlipsIff(list: seq<Timer>, t: Timer, i: nat)
    requires Positive(list) && t.delta > 0 && i < |list|
    ensures var k, m := Place(list, t.delta), Insert(list, t); var j := if k <= i then i + 1 else i;
            && |m| == |list| + 1 && m[j] == list[i] && Sum(m, j + 1) >= Sum(list, i + 1)
            && (Sum(m, j + 1) == Sum(list, i + 1) <==> t.delta > Sum(list, i + 1))
  {
    var k := Place(list, t.delta);
    InsertSums(list, t, i);
    InsertSums(list, t, i + 1);
    InsertSums(list, t, k);
    PlaceBounds(list, t.delta);
    if k <= i { SumGrows(list, k + 1, i + 1); }
  }

  // request q of v is request p of w, called later by so many ticks
  ghost predicate Carried(w: World, p: Spot, v: World, q: Spot, late: int)
    requires IsSpot(w, p)
  {
    IsSpot(v, q) && RequestAt(v, q) == RequestAt(w, p) && CallTime(v, q) == CallTime(w, p) + late
  }

  // timer j of w is timer i of v
  lemma StillWaits(w: World, j: nat, v: World, i: nat, late: int)
    requires j < |w.list| && i < |v.list| && v.list[i].fn == w.list[j].fn && v.list[i].due == w.list[j].due
    requires v.now + Sum(v.list, i + 1) == w.now + Sum(w.list, j + 1) + late
    ensures Carried(w, Waits(j), v, Waits(i), late)
  {}

  // it was the first, and is called now
  lemma IsCalled(w: World, v: World)
    requires w.list != [] && v.called == w.called + [Call(RequestOf(w.list[0]), v.now)]
    requires v.now == w.now + Sum(w.list, 1)
    ensures Carried(w, Waits(0), v, Answer(|w.called|), 0)
  {}

  // a tick answers a request, or brings it nearer
  lemma MovedByTick(w: World, v: World, j: nat)
    requires Inv(w) && !w.panicked && j < |w.list| && v == DoTick(w)
    ensures Carried(w, Waits(j), v, Moved(w, Waits(j), Tick), 0)
  {
    var n := Expired(Counted(w.list));
    if j < n {
      LastTick(w, j);
      IsCalled(w, v);
    } else {
      TickNears(w.list, j);
      StillWaits(w, j, v, j - n, 0);
    }
  }

  // another timer may move it
  lemma MovedByAdd(w: World, v: World, j: nat, a: Action) returns (late: nat)
    requires Inv(w) && j < |w.list| && Inserts(w, a) && v == Next(w, a)
    ensures Carried(w, Waits(j), v, Moved(w, Waits(j), a), late)
    ensures late == 0 <==> a.jiffies > Sum(w.list, j + 1)
  {
    SlipsIff(w.list, Timer(a.jiffies, a.fn, w.now + a.jiffies), j);
    var i := if Place(w.list, a.jiffies) <= j then j + 1 else j;
    late := Sum(v.list, i + 1) - Sum(w.list, j + 1);
    StillWaits(w, j, v, i, late);
  }

  // a request answered, or not touched
  lemma MovedNot(w: World, p: Spot, a: Action)
    requires IsSpot(w, p) && (p.Answer? || w.panicked || (a.Add? && !Inserts(w, a)))
    ensures Carried(w, p, Next(w, a), Moved(w, p, a), 0)
  {}

  lemma MovedStep(w: World, p: Spot, a: Action)
    requires Inv(w) && IsSpot(w, p)
    ensures var v, q := Next(w, a), Moved(w, p, a);
            && IsSpot(v, q) && RequestAt(v, q) == RequestAt(w, p) && CallTime(v, q) >= CallTime(w, p)
            && (CallTime(v, q) == CallTime(w, p) <==> !Delays(w, p, a))
  {
    if p.Answer? || w.panicked || (a.Add? && !Inserts(w, a)) {
      MovedNot(w, p, a);
    } else if a.Tick? {
      MovedByTick(w, Next(w, a), p.j);
    } else {
      var late := MovedByAdd(w, Next(w, a), p.j, a);
    }
  }

  function Follow(w: World, p: Spot, actions: seq<Action>): Spot
    decreases |actions|
  {
    if actions == [] then p else Follow(Next(w, actions[0]), Moved(w, p, actions[0]), actions[1..])
  }

  // while it waits, some timer is added for at most the ticks it has left
  ghost predicate Delayed(w: World, p: Spot, actions: seq<Action>)
    requires Inv(w) && IsSpot(w, p)
    decreases |actions|
  {
    actions != [] &&
    (Delays(w, p, actions[0]) ||
     (NextKeeps(w, actions[0]); MovedStep(w, p, actions[0]);
      Delayed(Next(w, actions[0]), Moved(w, p, actions[0]), actions[1..])))
  }

  lemma {:induction false} FollowRun(w: World, p: Spot, actions: seq<Action>)
    requires Inv(w) && IsSpot(w, p)
    ensures var v, q := Run(w, actions), Follow(w, p, actions);
            && IsSpot(v, q) && RequestAt(v, q) == RequestAt(w, p) && CallTime(v, q) >= CallTime(w, p)
            && (CallTime(v, q) == CallTime(w, p) <==> !Delayed(w, p, actions))
    decreases |actions|
  {
    if actions != [] {
      NextKeeps(w, actions[0]);
      MovedStep(w, p, actions[0]);
      FollowRun(Next(w, actions[0]), Moved(w, p, actions[0]), actions[1..]);
    }
  }

  // a request that has just been accepted
  lemma NewSpot(w: World, jiffies: int, fn: nat)
    requires Inv(w) && Inserts(w, Add(jiffies, fn))
    ensures var u, p := Next(w, Add(jiffies, fn)), Waits(Place(w.list, jiffies));
            && Inv(u) && IsSpot(u, p) && RequestAt(u, p) == Request(fn, w.now + jiffies)
            && CallTime(u, p) == w.now + jiffies
  {
    NextKeeps(w, Add(jiffies, fn));
    InsertSums(w.list, Timer(jiffies, fn, w.now + jiffies), Place(w.list, jiffies));
  }

  lemma WaitsInTime(w: World, p: Spot)
    requires Inv(w) && IsSpot(w, p) && p.Waits?
    ensures w.now < CallTime(w, p)
  {
    SumGrows(w.list, 1, p.j + 1);
    assert Sum(w.list, 1) == Sum(w.list, 0) + w.list[0].delta;
  }

  /** When a request is on time. Follow it from the call of add_timer on that accepts it, through
      any further actions: it is called exactly when due if and only if, while it waited, no timer
      was added for at most the ticks it had left. It is late otherwise, and still waits only
      before its time. */
  lemma OnTimeIff(before: seq<Action>, jiffies: int, fn: nat, after: seq<Action>)
    requires Inserts(Run(START, before), Add(jiffies, fn))
    ensures var w := Run(START, before); var u := Next(w, Add(jiffies, fn)); var p := Waits(Place(w.list, jiffies));
            var v, q, due := Run(u, after), Follow(u, p, after), w.now + jiffies;
            && Inv(u) && IsSpot(u, p) && IsSpot(v, q) && RequestAt(v, q) == Request(fn, due)
            && (CallTime(v, q) == due <==> !Delayed(u, p, after))
            && CallTime(v, q) >= due && (q.Waits? ==> v.now < CallTime(v, q))
  {
    var w := Run(START, before);
    var u, p := Next(w, Add(jiffies, fn)), Waits(Place(w.list, jiffies));
    RunKeeps(START, before);
    NewSpot(w, jiffies, fn);
    FollowRun(u, p, after);
    RunKeeps(u, after);
    if Follow(u, p, after).Waits? { WaitsInTime(Run(u, after), Follow(u, p, after)); }
  }

  /** A request that is late: due at tick 2, but called at tick 3, since one for a single tick
      came after it. */
  lemma LateCall(f: nat, g: nat)
    requires f != 0 && g != 0
    ensures Run(START, [Add(2, f), Add(1, g), Tick, Tick, Tick]).called ==
            [Call(Request(g, 1), 1), Call(Request(f, 2), 3)]
  {
    var w1 := World([Timer(2, f, 2)], 0, [], false);
    var w2 := World([Timer(1, g, 1), Timer(2, f, 2)], 0, [], false);
    TwoAdded(f, g);
    RunOn(START, Add(2, f), [Add(1, g), Tick, Tick, Tick]);
    RunOn(w1, Add(1, g), [Tick, Tick, Tick]);
    RunOn(w2, Tick, [Tick, Tick]);
    FirstTick(f, g);
    TwoMore(f, [Call(Request(g, 1), 1)]);
  }

  lemma TwoMore(f: nat, called: seq<Call>)
    ensures Run(World([Timer(2, f, 2)], 1, called, false), [Tick, Tick]) ==
            World([], 3, called + [Call(Request(f, 2), 3)], false)
  {
    SecondTick(f, called);
    ThirdTick(f, called);
    RunOn(World([Timer(2, f, 2)], 1, called, false), Tick, [Tick]);
    RunOn(World([Timer(1, f, 2)], 2, called, false), Tick, []);
  }

  lemma TwoAdded(f: nat, g: nat)
    requires f != 0 && g != 0
    ensures var w1 := World([Timer(2, f, 2)], 0, [], false);
            && Next(START, Add(2, f)) == w1
            && Next(w1, Add(1, g)) == World([Timer(1, g, 1), Timer(2, f, 2)], 0, [], false)
  {
    assert [Timer(1, g, 1)] + [Timer(2, f, 2)] == [Timer(1, g, 1), Timer(2, f, 2)];
  }

  lemma FirstTick(f: nat, g: nat)
    ensures DoTick(World([Timer(1, g, 1), Timer(2, f, 2)], 0, [], false)) ==
            World([Timer(2, f, 2)], 1, [Call(Request(g, 1), 1)], false)
  {
    var w := World([Timer(1, g, 1), Timer(2, f, 2)], 0, [], false);
    FirstGoes(w);
    assert w.list[1..] == [Timer(2, f, 2)] && [] + [Call(Request(g, 1), 1)] == [Call(Request(g, 1), 1)];
  }

  lemma SecondTick(f: nat, called: seq<Call>)
    ensures DoTick(World([Timer(2, f, 2)], 1, called, false)) == World([Timer(1, f, 2)], 2, called, false)
  {
    FirstCounts(World([Timer(2, f, 2)], 1, called, false));
  }

  lemma ThirdTick(f: nat, called: seq<Call>)
    ensures DoTick(World([Timer(1, f, 2)], 2, called, false)) == World([], 3, called + [Call(Request(f, 2), 3)], false)
  {
    FirstGoes(World([Timer(1, f, 2)], 2, called, false));
  }

  lemma FirstGoes(w: World)
    requires w.list != [] && w.list[0].delta == 1 && Positive(w.list)
    ensures DoTick(w) == World(w.list[1..], w.now + 1, w.called + [Call(RequestOf(w.list[0]), w.now + 1)], w.panicked)
  {
    TickFiresOne(w.list);
  }

  lemma FirstCounts(w: World)
    requires w.list != [] && w.list[0].delta > 1 && Positive(w.list)
    ensures DoTick(w) == World([Less(w.list[0], 1)] + w.list[1..], w.now + 1, w.called, w.panicked)
  {
    TickFiresOne(w.list);
  }

  lemma RunOn(w: World, a: Action, rest: seq<Action>)
    ensures Run(w, [a] + rest) == Run(Next(w, a), rest)
  {
    assert ([a] + rest)[1..] == rest;
  }

  // ----- the list in place ----------------------------------------------------------

  /** struct timer_list, with an index for its pointer. */
  datatype Node = Node(jiffies: int, fn: nat, next: int)

  function Link(slots: seq<nat>, i: nat): int { if i < |slots| then slots[i] else NONE }

  predicate NextAt(nodes: seq<Node>, slots: seq<nat>, i: nat)
    requires i < |slots|
  {
    slots[i] < |nodes| && nodes[slots[i]].next == Link(slots, i + 1)
  }

  /** From head on, the list runs through the entries slots, which are those with a function. */
  ghost predicate Threads(nodes: seq<Node>, head: int, slots: seq<nat>) {
    && (forall i :: 0 <= i < |slots| ==> slots[i] < |nodes|)
    && (forall i, j :: 0 <= i < j < |slots| ==> slots[i] != slots[j])
    && head == Link(slots, 0)
    && (forall i {:trigger NextAt(nodes, slots, i)} :: 0 <= i < |slots| ==> NextAt(nodes, slots, i))
    && (forall x: nat :: x < |nodes| ==> (nodes[x].fn != 0 <==> x in slots))
  }

  function TimerAt(nodes: seq<Node>, due: seq<int>, x: nat): Timer
    requires x < |nodes| == |due|
  {
    Timer(nodes[x].jiffies, nodes[x].fn, due[x])
  }

  function Listed(nodes: seq<Node>, due: seq<int>, slots: seq<nat>): (list: seq<Timer>)
    requires |nodes| == |due| && forall i :: 0 <= i < |slots| ==> slots[i] < |nodes|
    ensures |list| == |slots| && forall i :: 0 <= i < |slots| ==> list[i] == TimerAt(nodes, due, slots[i])
  {
    seq(|slots|, i requires 0 <= i < |slots| => TimerAt(nodes, due, slots[i]))
  }

  lemma {:induction false} DistinctBound(slots: seq<nat>, n: nat)
    requires forall i :: 0 <= i < |slots| ==> slots[i] < n
    requires forall i, j :: 0 <= i < j < |slots| ==> slots[i] != slots[j]
    ensures |slots| <= n && (|slots| == n <==> forall x: nat :: x < n ==> x in slots)
    decreases n
  {
    if slots == [] {
      assert 0 !in slots;
    } else if k :| 0 <= k < |slots| && slots[k] == n - 1 {
      var rest := slots[..k] + slots[k + 1..];
      assert forall i :: 0 <= i < |rest| ==> rest[i] == slots[if i < k then i else i + 1];
      DistinctBound(rest, n - 1);
      forall x: nat | x < n - 1 ensures x in slots <==> x in rest {
        if j :| 0 <= j < |slots| && slots[j] == x { assert rest[if j < k then j else j - 1] == x; }
      }
    } else {
      assert slots[0] < n;
      DistinctBound(slots, n - 1);
      assert n - 1 !in slots;
    }
  }

  lemma PrependThreads(nodes: seq<Node>, head: int, slots: seq<nat>, p: nat, ticks: int, f: nat)
    requires Threads(nodes, head, slots) && p < |nodes| && nodes[p].fn == 0 && f != 0
    ensures Threads(nodes[p := Node(ticks, f, head)], p, [p] + slots)
  {
    var m, now := nodes[p := Node(ticks, f, head)], [p] + slots;
    assert forall i :: 0 <= i < |slots| ==> slots[i] != p;
    forall i | 0 <= i < |now| ensures NextAt(m, now, i) { if i > 0 { assert NextAt(nodes, slots, i - 1); } }
    forall x: nat | x < |m| ensures m[x].fn != 0 <==> x in now { }
  }

  lemma PrependListed(nodes: seq<Node>, due: seq<int>, slots: seq<nat>, p: nat, n: Node, d: int)
    requires |nodes| == |due| && p < |nodes| && forall i :: 0 <= i < |slots| ==> slots[i] < |nodes| && slots[i] != p
    ensures Listed(nodes[p := n], due[p := d], [p] + slots) == [Timer(n.jiffies, n.fn, d)] + Listed(nodes, due, slots)
  {}

  // entry p, so far without a function, goes to the front
  lemma Prepends(nodes: seq<Node>, due: seq<int>, head: int, slots: seq<nat>, p: nat, ticks: int, f: nat, d: int)
    requires Threads(nodes, head, slots) && |nodes| == |due| && p < |nodes| && nodes[p].fn == 0 && f != 0
    ensures var m := nodes[p := Node(ticks, f, head)];
            && Threads(m, p, [p] + slots)
            && Listed(m, due[p := d], [p] + slots) == [Timer(ticks, f, d)] + Listed(nodes, due, slots)
  {
    assert forall i :: 0 <= i < |slots| ==> slots[i] in slots && slots[i] != p;
    PrependThreads(nodes, head, slots, p, ticks, f);
    PrependListed(nodes, due, slots, p, Node(ticks, f, head), d);
  }

  lemma DropThreads(nodes: seq<Node>, slots: seq<nat>)
    requires slots != [] && Threads(nodes, slots[0], slots)
    ensures Threads(nodes[slots[0] := nodes[slots[0]].(fn := 0)], nodes[slots[0]].next, slots[1..])
  {
    var m := nodes[slots[0] := nodes[slots[0]].(fn := 0)];
    assert NextAt(nodes, slots, 0);
    forall i | 0 <= i < |slots| - 1 ensures NextAt(m, slots[1..], i) { assert NextAt(nodes, slots, i + 1); }
    assert forall x :: x in slots[1..] <==> x in slots && x != slots[0];
  }

  lemma DropListed(nodes: seq<Node>, due: seq<int>, slots: seq<nat>)
    requires slots != [] && |nodes| == |due| && forall i :: 0 <= i < |slots| ==> slots[i] < |nodes|
    requires forall i, j :: 0 <= i < j < |slots| ==> slots[i] != slots[j]
    ensures Listed(nodes[slots[0] := nodes[slots[0]].(fn := 0)], due, slots[1..]) == Listed(nodes, due, slots)[1..]
  {}

  // entry i of the list takes other contents
  lemma ContentThreads(nodes: seq<Node>, due: seq<int>, head: int, slots: seq<nat>, i: nat, ticks: int, f: nat, d: int)
    requires Threads(nodes, head, slots) && |nodes| == |due| && i < |slots| && f != 0
    ensures var m := nodes[slots[i] := Node(ticks, f, nodes[slots[i]].next)];
            && Threads(m, head, slots)
            && Listed(m, due[slots[i] := d], slots) == Listed(nodes, due, slots)[i := Timer(ticks, f, d)]
  {
    var m := nodes[slots[i] := Node(ticks, f, nodes[slots[i]].next)];
    forall j | 0 <= j < |slots| ensures NextAt(m, slots, j) { assert NextAt(nodes, slots, j); }
  }

  // one turn of add_timer's loop: entry k gives up its successor's ticks and they change places
  lemma ExchangeThreads(nodes: seq<Node>, due: seq<int>, head: int, slots: seq<nat>, k: nat)
    requires Threads(nodes, head, slots) && |nodes| == |due| && k + 1 < |slots|
    ensures var p, q := slots[k], slots[k + 1];
            var m := nodes[p := Node(nodes[q].jiffies, nodes[q].fn, nodes[p].next)]
                          [q := Node(nodes[p].jiffies - nodes[q].jiffies, nodes[p].fn, nodes[q].next)];
            var list := Listed(nodes, due, slots);
            && p != q && nodes[p].next == q && Threads(m, head, slots)
            && Listed(m, due[p := due[q]][q := due[p]], slots) ==
               list[k := list[k + 1]][k + 1 := Less(list[k], list[k + 1].delta)]
  {
    var p, q := slots[k], slots[k + 1];
    assert NextAt(nodes, slots, k) && p in slots && q in slots;
    ContentThreads(nodes, due, head, slots, k, nodes[q].jiffies, nodes[q].fn, due[q]);
    var m1, d1 := nodes[p := Node(nodes[q].jiffies, nodes[q].fn, nodes[p].next)], due[p := due[q]];
    ContentThreads(m1, d1, head, slots, k + 1, nodes[p].jiffies - nodes[q].jiffies, nodes[p].fn, due[p]);
  }

  // add_timer's loop goes on from place k exactly until it is the new timer's
  lemma {:induction false} PlaceNext(list: seq<Timer>, ticks: int, k: nat)
    requires k <= Place(list, ticks)
    ensures k < Place(list, ticks) <==> k < |list| && list[k].delta < ticks - Sum(list, k)
    decreases k
  {
    if k > 0 {
      PlaceNext(list[1..], ticks - list[0].delta, k - 1);
      SumTail(list, k);
    }
  }

  // timer t has come down to place k of the list, where it stores what is left of its ticks
  predicate Sinking(pending: seq<Timer>, list: seq<Timer>, t: Timer, k: nat) {
    k <= |list| && pending == InsertAt(list, k, Less(t, Sum(list, k)))
  }

  lemma SinkStart(list: seq<Timer>, t: Timer)
    ensures Sinking([t] + list, list, t, 0)
  {
    assert list[..0] == [] && list[0..] == list;
  }

  lemma SinkStep(pending: seq<Timer>, list: seq<Timer>, t: Timer, k: nat)
    requires Sinking(pending, list, t, k) && k < |list|
    ensures |pending| == |list| + 1 && pending[k].delta == t.delta - Sum(list, k) && pending[k + 1] == list[k]
    ensures Sinking(pending[k := pending[k + 1]][k + 1 := Less(pending[k], pending[k + 1].delta)], list, t, k + 1)
  {
    var v := Less(t, Sum(list, k + 1));
    assert pending[k := list[k]][k + 1 := v] == InsertAt(list, k + 1, v);
  }

  // calls are the functions of the first k timers
  ghost predicate FirstCalled(calls: seq<nat>, list: seq<Timer>, k: nat) {
    |calls| == k <= |list| && forall i :: 0 <= i < k ==> calls[i] == list[i].fn
  }

  lemma ExpireStep(list: seq<Timer>, k: nat, calls: seq<nat>)
    requires FirstCalled(calls, list, k) && k < |list| && list[k].delta <= 0 && Expired(list) == k + Expired(list[k..])
    ensures FirstCalled(calls + [list[k].fn], list, k + 1) && Expired(list) == k + 1 + Expired(list[k + 1..])
    ensures list[k..][1..] == list[k + 1..]
  {
    assert list[k..][1..] == list[k + 1..];
  }

  class TimerList {
    const timers: array<Node>
    var nextTimer: int
    ghost var slots: seq<nat>
    ghost var due: seq<int>

    ghost predicate Valid()
      reads this, timers
    {
      timers.Length == |due| == TIME_REQUESTS && Threads(timers[..], nextTimer, slots)
    }

    ghost function Contents(): seq<Timer>
      requires Valid()
      reads this, timers
    {
      Listed(timers[..], due, slots)
    }

    constructor ()
      ensures Valid() && Contents() == [] && fresh(timers)
    {
      timers := new Node[TIME_REQUESTS](_ => Node(0, 0, NONE));
      nextTimer := NONE;
      slots := [];
      due := seq(TIME_REQUESTS, _ => 0);
    }

    /** The first entry without a function, TIME_REQUESTS when all have one. */
    method FindFree() returns (p: nat)
      requires Valid()
      ensures p <= TIME_REQUESTS && (p < TIME_REQUESTS ==> timers[p].fn == 0)
      ensures p == TIME_REQUESTS <==> |Contents()| >= TIME_REQUESTS
    {
      p := 0;
      while p < TIME_REQUESTS && timers[p].fn != 0
        invariant p <= TIME_REQUESTS && forall x :: 0 <= x < p ==> timers[..][x].fn != 0
      {
        p := p + 1;
      }
      DistinctBound(slots, TIME_REQUESTS);
      assert p < TIME_REQUESTS ==> timers[..][p].fn == 0;
    }

    /** add_timer: whether it calls f at once, whether it panics, and what it makes of the list. */
    method AddTimer(ticks: int, f: nat, ghost now: int) returns (called: bool, panicked: bool)
      requires Valid()
      modifies this, timers
      ensures Valid()
      ensures called == (f != 0 && ticks <= 0)
      ensures panicked == (f != 0 && ticks > 0 && |old(Contents())| >= TIME_REQUESTS)
      ensures Contents() == if f == 0 || called || panicked then old(Contents())
                            else Insert(old(Contents()), Timer(ticks, f, now + ticks))
    {
      if f == 0 { return false, false; }
      if ticks <= 0 { return true, false; }
      var p := FindFree();
      if p >= TIME_REQUESTS { return false, true; }
      ghost var list := Contents();
      Prepend(p, ticks, f, now);
      Sink(list, Timer(ticks, f, now + ticks));
      return false, false;
    }

    // the new timer goes to the front of the list
    method Prepend(p: nat, ticks: int, f: nat, ghost now: int)
      requires Valid() && p < timers.Length && timers[p].fn == 0 && f != 0
      modifies this, timers
      ensures Valid() && Contents() == [Timer(ticks, f, now + ticks)] + old(Contents())
    {
      Prepends(timers[..], due, nextTimer, slots, p, ticks, f, now + ticks);
      ghost var m := timers[..][p := Node(ticks, f, nextTimer)];
      timers[p] := Node(ticks, f, nextTimer);
      nextTimer := p;
      slots := [p] + slots;
      due := due[p := now + ticks];
      assert timers[..] == m;
    }

    /** One turn of the loop below. */
    method Exchange(p: nat, ghost k: nat) returns (q: nat)
      requires Valid() && k + 1 < |slots| && p == slots[k]
      modifies timers, this`due
      ensures Valid() && q == slots[k + 1] && NextAt(timers[..], slots, k + 1)
      ensures var c := old(Contents()); Contents() == c[k := c[k + 1]][k + 1 := Less(c[k], c[k + 1].delta)]
    {
      ExchangeThreads(timers[..], due, nextTimer, slots, k);
      var before := timers[p];
      q := before.next;
      var after := timers[q];
      Put(p, Node(after.jiffies, after.fn, before.next));
      Put(q, Node(before.jiffies - after.jiffies, before.fn, after.next));
      due := due[p := due[q]][q := due[p]];
      assert NextAt(timers[..], slots, k + 1);
    }

    method Put(p: nat, node: Node)
      requires p < timers.Length
      modifies timers
      ensures timers[..] == old(timers[..])[p := node]
    {
      timers[p] := node;
    }

    /** The loop of add_timer: contents move along the list until they are in order. */
    method Sink(ghost list: seq<Timer>, ghost t: Timer)
      requires Valid() && Contents() == [t] + list
      modifies this, timers
      ensures Valid() && Contents() == Insert(list, t)
    {
      var p := nextTimer;
      ghost var k := 0;
      ghost var place := Place(list, t.delta);
      SinkStart(list, t);
      while timers[p].next != NONE && timers[timers[p].next].jiffies < timers[p].jiffies
        invariant Valid() && slots == old(slots) && k <= place && k < |slots| == |list| + 1 && p == slots[k]
        invariant NextAt(timers[..], slots, k)
        invariant Sinking(Contents(), list, t, k)
        decreases |slots| - k
      {
        SinkStep(Contents(), list, t, k);
        PlaceNext(list, t.delta, k);
        p := Exchange(p, k);
        k := k + 1;
      }
      if k < |list| { SinkStep(Contents(), list, t, k); }
      PlaceNext(list, t.delta, k);
      InsertSplits(list, t);
    }

    /** The timer part of do_timer: the functions it calls, in order, and what is left. */
    method Tick() returns (calls: seq<nat>)
      requires Valid()
      modifies this, timers
      ensures Valid()
      ensures var list := Counted(old(Contents())); var n := Expired(list);
              && Contents() == list[n..]
              && FirstCalled(calls, list, n)
    {
      calls := [];
      if nextTimer == NONE { return; }
      ghost var list := Counted(Contents());
      CountDown(list);
      ghost var k := 0;
      assert list[0..] == list;
      while nextTimer != NONE && timers[nextTimer].jiffies <= 0
        invariant Valid() && k <= |list| && Contents() == list[k..]
        invariant Expired(list) == k + Expired(list[k..])
        invariant FirstCalled(calls, list, k)
        decreases |slots|
      {
        assert Contents()[0] == list[k];
        ExpireStep(list, k, calls);
        var f := DropFirst();
        calls := calls + [f];
        k := k + 1;
      }
      assert Contents() == [] || Contents()[0].delta > 0;
    }

    method CountDown(ghost list: seq<Timer>)
      requires Valid() && slots != [] && list == Counted(Contents())
      modifies timers
      ensures Valid() && Contents() == list
    {
      var n := timers[nextTimer];
      ContentThreads(timers[..], due, nextTimer, slots, 0, n.jiffies - 1, n.fn, due[nextTimer]);
      ghost var m := timers[..][nextTimer := n.(jiffies := n.jiffies - 1)];
      timers[nextTimer] := n.(jiffies := n.jiffies - 1);
      assert timers[..] == m && due[nextTimer := due[nextTimer]] == due;
    }

    /** Takes the first entry off the list; its function is what do_timer calls next. */
    method DropFirst() returns (f: nat)
      requires Valid() && slots != []
      modifies this, timers
      ensures Valid() && |slots| == |old(slots)| - 1
      ensures Contents() == old(Contents())[1..] && f == old(Contents())[0].fn
    {
      DropThreads(timers[..], slots);
      DropListed(timers[..], due, slots);
      var n := timers[nextTimer];
      ghost var m := timers[..][nextTimer := n.(fn := 0)];
      f := n.fn;
      timers[nextTimer] := n.(fn := 0);
      nextTimer := n.next;
      slots := slots[1..];
      assert timers[..] == m;
    }
  }
}
