/** iget, get_empty_inode and iput (of linked inodes) of fs/inode.c under interleaving: what a
    task does between two sleeps is one step, and between steps any other task may act. */
module InodeCache {
  import opened Basics

  const NONE := -1

  /** An in-core inode slot, as far as finding it goes. */
  datatype Slot = Slot(dev: nat, num: nat, count: nat, dirty: bool, locked: bool)

  const EMPTY := Slot(0, 0, 1, false, false)

  /** Where a call of iget stands; the last state is that of a caller between iget and iput. */
  datatype Call =
    | Clearing(dev: nat, num: nat, e: nat)          // get_empty_inode waits for slot e to be unlocked and clean
    | Matching(dev: nat, num: nat, e: nat, i: nat)  // slot i matched, waiting for its lock; e is the empty slot
    | Returning(dev: nat, num: nat, e: nat, i: nat) // slot i is taken, iput of e waits for its lock
    | Holding(dev: nat, num: nat, i: nat)

  /** last is the static pointer of get_empty_inode. */
  datatype Table = Table(slots: seq<Slot>, last: nat, calls: map<nat, Call>, panicked: bool)

  // ----- the two scans --------------------------------------------------------------

  datatype Picked = Picked(e: int, last: nat)

  // the scan of get_empty_inode with n slots to go, e the best so far
  function Pick(slots: seq<Slot>, last: nat, n: nat, e: int): (r: Picked)
    requires |slots| > 0
    ensures r.e == e || (0 <= r.e < |slots| && slots[r.e].count == 0)
    decreases n
  {
    if n == 0 then Picked(e, last)
    else
      var next := if last + 1 >= |slots| then 0 else last + 1;
      if slots[next].count != 0 then Pick(slots, next, n - 1, e)
      else if !slots[next].dirty && !slots[next].locked then Picked(next, next)
      else Pick(slots, next, n - 1, next)
  }

  predicate Matches(h: Slot, dev: nat, num: nat) { h.dev == dev && h.num == num }

  // iget's scan of the table from slot i on
  function ScanFrom(slots: seq<Slot>, dev: nat, num: nat, i: nat): (r: int)
    requires i <= |slots|
    ensures r == NONE || (i <= r < |slots| && Matches(slots[r], dev, num))
    ensures r == NONE ==> forall j :: i <= j < |slots| ==> !Matches(slots[j], dev, num)
    decreases |slots| - i
  {
    if i == |slots| then NONE
    else if Matches(slots[i], dev, num) then i
    else ScanFrom(slots, dev, num, i + 1)
  }

  // ----- steps ----------------------------------------------------------------------

  function SetSlot(t: Table, i: nat, h: Slot): Table {
    if i < |t.slots| then t.(slots := t.slots[i := h]) else t
  }

  function AddCount(t: Table, i: nat, delta: int): Table {
    if i < |t.slots| && t.slots[i].count + delta >= 0
    then t.(slots := t.slots[i := t.slots[i].(count := t.slots[i].count + delta)])
    else t
  }

  // get_empty_inode up to its next sleep
  function Choose(t: Table, id: nat, dev: nat, num: nat): Table
    requires |t.slots| > 0
  {
    var p := Pick(t.slots, t.last, |t.slots|, NONE);
    if p.e < 0 then t.(last := p.last, panicked := true)
    else t.(last := p.last, calls := t.calls[id := Clearing(dev, num, p.e)])
  }

  // iget's loop from the start of the table to its next sleep, with empty slot e
  function Search(t: Table, id: nat, dev: nat, num: nat, e: nat): Table {
    var i := ScanFrom(t.slots, dev, num, 0);
    if i >= 0 then t.(calls := t.calls[id := Matching(dev, num, e, i)])
    else if e < |t.slots| then
      SetSlot(t, e, t.slots[e].(dev := dev, num := num)).(calls := t.calls[id := Holding(dev, num, e)])
    else t
  }

  datatype Action =
    | Iget(id: nat, dev: nat, num: nat)
    | Wake(id: nat)
    | Iput(id: nat)
    | Modify(id: nat)
    | Lock(i: nat)
    | Clean(i: nat)       // write_inode has written a locked inode
    | Unlock(i: nat)

  function Awake(t: Table, id: nat, c: Call): Table
    requires |t.slots| > 0
  {
    match c
    case Clearing(dev, num, e) =>
      if e >= |t.slots| || t.slots[e].locked || t.slots[e].dirty then t
      else if t.slots[e].count != 0 then Choose(t, id, dev, num)
      else Search(SetSlot(t, e, EMPTY), id, dev, num, e)
    case Matching(dev, num, e, i) =>
      if i >= |t.slots| || t.slots[i].locked then t
      else if !Matches(t.slots[i], dev, num) then Search(t, id, dev, num, e)
      else AddCount(t, i, 1).(calls := t.calls[id := Returning(dev, num, e, i)])
    case Returning(dev, num, e, i) =>
      if e >= |t.slots| || t.slots[e].locked then t
      else AddCount(t, e, -1).(calls := t.calls[id := Holding(dev, num, i)])
    case Holding(_, _, _) => t
  }

  // an action that is not possible changes nothing; iget with device 0 is a panic
  function Next(t: Table, a: Action): Table
    requires |t.slots| > 0
  {
    match a
    case Iget(id, dev, num) =>
      if id in t.calls then t
      else if dev == 0 then t.(panicked := true) else Choose(t, id, dev, num)
    case Wake(id) => if id in t.calls then Awake(t, id, t.calls[id]) else t
    case Iput(id) =>
      if id in t.calls && t.calls[id].Holding? && t.calls[id].i < |t.slots| && !t.slots[t.calls[id].i].locked
         && (t.slots[t.calls[id].i].count > 1 || !t.slots[t.calls[id].i].dirty)
      then AddCount(t, t.calls[id].i, -1).(calls := t.calls - {id})
      else t
    case Modify(id) =>
      if id in t.calls && t.calls[id].Holding? && t.calls[id].i < |t.slots|
      then SetSlot(t, t.calls[id].i, t.slots[t.calls[id].i].(dirty := true))
      else t
    case Lock(i) => if i < |t.slots| && !t.slots[i].locked then SetSlot(t, i, t.slots[i].(locked := true)) else t
    case Clean(i) => if i < |t.slots| && t.slots[i].locked then SetSlot(t, i, t.slots[i].(dirty := false)) else t
    case Unlock(i) => if i < |t.slots| then SetSlot(t, i, t.slots[i].(locked := false)) else t
  }

  // ----- the invariant --------------------------------------------------------------

  predicate Keeps(c: Call, i: int) {
    ((c.Returning? || c.Holding?) && c.i == i) || ((c.Matching? || c.Returning?) && c.e == i)
  }

  ghost function Users(t: Table, i: int): set<nat> { set id | id in t.calls && Keeps(t.calls[id], i) }

  ghost predicate Unique(slots: seq<Slot>) {
    forall j, k ::
      0 <= j < |slots| && 0 <= k < |slots| && slots[j].dev != 0
      && slots[j].dev == slots[k].dev && slots[j].num == slots[k].num
      ==> j == k
  }

  // the slots a call points at exist; its empty slot has no device and is its own; a slot it has taken is the right one
  ghost predicate CallOk(t: Table, id: nat)
    requires id in t.calls
  {
    var c := t.calls[id];
    && c.dev != 0
    && (!c.Holding? ==> c.e < |t.slots|)
    && (!c.Clearing? ==> c.i < |t.slots|)
    && (c.Matching? || c.Returning? ==> t.slots[c.e].dev == 0 && Users(t, c.e) == {id})
    && (c.Returning? || c.Holding? ==> Matches(t.slots[c.i], c.dev, c.num))
  }

  ghost predicate Inv(t: Table) {
    && |t.slots| > 0
    && Unique(t.slots)
    && (forall i :: 0 <= i < |t.slots| ==> t.slots[i].count == |Users(t, i)|)
    && (forall id :: id in t.calls ==> CallOk(t, id))
  }

  ghost predicate OnlyCall(t: Table, u: Table, id: nat) {
    forall x :: x != id ==> (x in u.calls <==> x in t.calls) && (x in t.calls ==> u.calls[x] == t.calls[x])
  }

  lemma UsersUpdate(t: Table, u: Table, id: nat, i: int)
    requires OnlyCall(t, u, id)
    ensures Users(u, i) - {id} == Users(t, i) - {id}
    ensures |Users(u, i)| == |Users(t, i)| + (if id in u.calls && Keeps(u.calls[id], i) then 1 else 0)
                             - (if id in t.calls && Keeps(t.calls[id], i) then 1 else 0)
  {
    assert forall x :: x in Users(t, i) - {id} <==> x in Users(u, i) - {id};
    RemoveSize(Users(t, i), id);
    RemoveSize(Users(u, i), id);
  }

  /** The call id moves on: counts follow, slots in use keep their identity, and the new state
      of the call is sound. */
  lemma CallKeepsInv(t: Table, u: Table, id: nat)
    requires Inv(t) && |u.slots| == |t.slots| && Unique(u.slots) && OnlyCall(t, u, id)
    requires forall i :: 0 <= i < |t.slots| ==>
               u.slots[i].count == t.slots[i].count + (if id in u.calls && Keeps(u.calls[id], i) then 1 else 0)
                                   - (if id in t.calls && Keeps(t.calls[id], i) then 1 else 0)
    requires forall i, x :: 0 <= i < |t.slots| && x != id && x in t.calls && Keeps(t.calls[x], i) ==>
               u.slots[i].dev == t.slots[i].dev && u.slots[i].num == t.slots[i].num
    requires forall x :: x != id && x in t.calls && (t.calls[x].Matching? || t.calls[x].Returning?) && id in u.calls ==>
               !Keeps(u.calls[id], t.calls[x].e)
    requires id in u.calls ==> CallOk(u, id)
    ensures Inv(u)
  {
    forall i | 0 <= i < |u.slots| ensures u.slots[i].count == |Users(u, i)| { UsersUpdate(t, u, id, i); }
    forall x | x in u.calls && x != id
      ensures CallOk(u, x)
    {
      var c := t.calls[x];
      assert CallOk(t, x);
      if c.Matching? || c.Returning? {
        UsersUpdate(t, u, id, c.e);
        assert id !in Users(u, c.e);
        assert Users(u, c.e) == {x};
      }
    }
  }

  // id keeps no slot
  ghost predicate Detached(t: Table, id: nat) { id !in t.calls || t.calls[id].Clearing? }

  lemma ChooseKeeps(t: Table, id: nat, dev: nat, num: nat)
    requires Inv(t) && Detached(t, id) && dev != 0
    ensures Inv(Choose(t, id, dev, num))
  {
    CallKeepsInv(t, Choose(t, id, dev, num), id);
  }

  // id has an empty slot of its own and nothing else
  ghost predicate OwnsEmpty(t: Table, id: nat, e: nat) {
    e < |t.slots| && t.slots[e].dev == 0 && id in t.calls && t.calls[id].Matching? && t.calls[id].e == e
  }

  lemma OnlyUser(t: Table, id: nat, e: nat)
    requires Inv(t) && OwnsEmpty(t, id, e)
    ensures Users(t, e) == {id} && forall x :: x != id && x in t.calls ==> !Keeps(t.calls[x], e)
  {
    assert CallOk(t, id) && Users(t, e) == {id};
    forall x | x != id && x in t.calls ensures !Keeps(t.calls[x], e) { assert x !in Users(t, e); }
  }

  lemma SearchKeeps(t: Table, id: nat, dev: nat, num: nat, e: nat)
    requires Inv(t) && OwnsEmpty(t, id, e) && dev != 0
    ensures Inv(Search(t, id, dev, num, e))
  {
    var u := Search(t, id, dev, num, e);
    OnlyUser(t, id, e);
    UsersUpdate(t, u, id, e);
    if u.calls[id].Matching? { assert Users(u, e) == {id}; }
    CallKeepsInv(t, u, id);
  }

  // memset of an unused slot, taken by a call that was clearing it
  lemma ClearKeeps(t: Table, id: nat, e: nat)
    requires Inv(t) && id in t.calls && t.calls[id].Clearing? && e == t.calls[id].e && t.slots[e].count == 0
    ensures var u := SetSlot(t, e, EMPTY).(calls := t.calls[id := Matching(t.calls[id].dev, t.calls[id].num, e, e)]);
            Inv(u) && OwnsEmpty(u, id, e)
  {
    var u := SetSlot(t, e, EMPTY).(calls := t.calls[id := Matching(t.calls[id].dev, t.calls[id].num, e, e)]);
    assert CallOk(t, id);
    assert Users(t, e) == {};
    forall x | x in t.calls ensures !Keeps(t.calls[x], e) { assert x !in Users(t, e); }
    UsersUpdate(t, u, id, e);
    assert Users(u, e) == {id};
    CallKeepsInv(t, u, id);
  }

  lemma FlagsKeepInv(t: Table, i: nat, h: Slot)
    requires Inv(t) && i < |t.slots| && h.dev == t.slots[i].dev && h.num == t.slots[i].num
    requires h.count == t.slots[i].count
    ensures Inv(SetSlot(t, i, h))
  {
    var u := SetSlot(t, i, h);
    assert forall j :: Users(u, j) == Users(t, j);
    forall x | x in u.calls ensures CallOk(u, x) { assert CallOk(t, x); }
  }

  lemma AwakeKeeps(t: Table, id: nat)
    requires Inv(t) && id in t.calls
    ensures Inv(Awake(t, id, t.calls[id]))
  {
    assert CallOk(t, id);
    match t.calls[id]
    case Clearing(dev, num, e) =>
      if !t.slots[e].locked && !t.slots[e].dirty {
        if t.slots[e].count != 0 {
          ChooseKeeps(t, id, dev, num);
        } else {
          ClearKeeps(t, id, e);
          var u := SetSlot(t, e, EMPTY).(calls := t.calls[id := Matching(dev, num, e, e)]);
          SearchKeeps(u, id, dev, num, e);
          SearchForgets(SetSlot(t, e, EMPTY), u, id, dev, num, e);
        }
      }
    case Matching(dev, num, e, i) =>
      if !t.slots[i].locked {
        if Matches(t.slots[i], dev, num) { TakeKeeps(t, id); } else { SearchKeeps(t, id, dev, num, e); }
      }
    case Returning(dev, num, e, i) =>
      if !t.slots[e].locked { ReturnKeeps(t, id); }
    case Holding(_, _, _) =>
  }

  // Search overwrites the call's own state
  lemma SearchForgets(t: Table, u: Table, id: nat, dev: nat, num: nat, e: nat)
    requires e < |t.slots| && id in u.calls && u == t.(calls := t.calls[id := u.calls[id]])
    ensures Search(t, id, dev, num, e) == Search(u, id, dev, num, e)
  {
    var i := ScanFrom(t.slots, dev, num, 0);
    if i >= 0 {
      assert u.calls[id := Matching(dev, num, e, i)] == t.calls[id := Matching(dev, num, e, i)];
    } else {
      assert u.calls[id := Holding(dev, num, e)] == t.calls[id := Holding(dev, num, e)];
    }
  }

  lemma TakeKeeps(t: Table, id: nat)
    requires Inv(t) && id in t.calls && t.calls[id].Matching?
    requires Matches(t.slots[t.calls[id].i], t.calls[id].dev, t.calls[id].num)
    ensures var c := t.calls[id]; Inv(AddCount(t, c.i, 1).(calls := t.calls[id := Returning(c.dev, c.num, c.e, c.i)]))
  {
    var c := t.calls[id];
    assert CallOk(t, id) && c.e != c.i;
    var u := AddCount(t, c.i, 1).(calls := t.calls[id := Returning(c.dev, c.num, c.e, c.i)]);
    UsersUpdate(t, u, id, c.e);
    assert Users(u, c.e) == {id};
    forall x | x != id && x in t.calls && (t.calls[x].Matching? || t.calls[x].Returning?)
      ensures !Keeps(u.calls[id], t.calls[x].e)
    {
      assert CallOk(t, x) && id !in Users(t, t.calls[x].e);
    }
    CallKeepsInv(t, u, id);
  }

  lemma ReturnKeeps(t: Table, id: nat)
    requires Inv(t) && id in t.calls && t.calls[id].Returning?
    ensures var c := t.calls[id]; Inv(AddCount(t, c.e, -1).(calls := t.calls[id := Holding(c.dev, c.num, c.i)]))
  {
    var c := t.calls[id];
    assert CallOk(t, id) && c.e != c.i;
    var u := AddCount(t, c.e, -1).(calls := t.calls[id := Holding(c.dev, c.num, c.i)]);
    assert id in Users(t, c.e);
    forall x | x != id && x in t.calls && (t.calls[x].Matching? || t.calls[x].Returning?)
      ensures !Keeps(u.calls[id], t.calls[x].e)
    {
      assert CallOk(t, x) && id !in Users(t, t.calls[x].e);
    }
    CallKeepsInv(t, u, id);
  }

  lemma IputKeeps(t: Table, id: nat)
    requires Inv(t) && id in t.calls && t.calls[id].Holding?
    ensures Inv(Next(t, Iput(id))) && |Next(t, Iput(id)).slots| == |t.slots|
  {
    assert CallOk(t, id) && id in Users(t, t.calls[id].i);
    if Next(t, Iput(id)) != t { CallKeepsInv(t, Next(t, Iput(id)), id); }
  }

  lemma ModifyKeeps(t: Table, id: nat)
    requires Inv(t)
    ensures Inv(Next(t, Modify(id))) && |Next(t, Modify(id)).slots| == |t.slots|
  {
    if id in t.calls && t.calls[id].Holding? {
      assert CallOk(t, id);
      FlagsKeepInv(t, t.calls[id].i, t.slots[t.calls[id].i].(dirty := true));
    }
  }

  lemma NextKeeps(t: Table, a: Action)
    requires Inv(t)
    ensures Inv(Next(t, a)) && |Next(t, a).slots| == |t.slots|
  {
    match a
    case Iget(id, dev, num) => if id !in t.calls && dev != 0 { ChooseKeeps(t, id, dev, num); } else { PanicKeeps(t); }
    case Wake(id) => if id in t.calls { AwakeKeeps(t, id); }
    case Iput(id) =>
      if id in t.calls && t.calls[id].Holding? { IputKeeps(t, id); }
    case Modify(id) => ModifyKeeps(t, id);
    case Lock(i) => if i < |t.slots| { FlagsKeepInv(t, i, t.slots[i].(locked := true)); }
    case Clean(i) => if i < |t.slots| { FlagsKeepInv(t, i, t.slots[i].(dirty := false)); }
    case Unlock(i) => if i < |t.slots| { FlagsKeepInv(t, i, t.slots[i].(locked := false)); }
  }

  lemma PanicKeeps(t: Table)
    requires Inv(t)
    ensures Inv(t.(panicked := true))
  {
    var u := t.(panicked := true);
    assert forall j :: Users(u, j) == Users(t, j);
    forall x | x in u.calls ensures CallOk(u, x) { assert CallOk(t, x); }
  }

  // ----- what it means for the callers ----------------------------------------------

  ghost predicate SameIdentity(t: Table, u: Table, i: nat)
    requires i < |t.slots|
  {
    |u.slots| == |t.slots| && u.slots[i].dev == t.slots[i].dev && u.slots[i].num == t.slots[i].num
  }

  // iget's loop gives an identity to nothing but its empty slot
  lemma SearchUsed(t: Table, id: nat, dev: nat, num: nat, e: nat, i: nat)
    requires i < |t.slots| && i != e
    ensures SameIdentity(t, Search(t, id, dev, num, e), i)
  {}

  lemma WakeUsed(t: Table, id: nat, i: nat)
    requires Inv(t) && i < |t.slots| && t.slots[i].count > 0 && t.slots[i].dev != 0
    ensures SameIdentity(t, Next(t, Wake(id)), i)
  {
    if id in t.calls {
      assert CallOk(t, id);
      match t.calls[id]
      case Clearing(dev, num, e) => if e != i { SearchUsed(SetSlot(t, e, EMPTY), id, dev, num, e, i); }
      case Matching(dev, num, e, _) => SearchUsed(t, id, dev, num, e, i);
      case Returning(_, _, _, _) =>
      case Holding(_, _, _) =>
    }
  }

  /** A slot with a device that anybody uses never becomes another inode. */
  lemma UsedSlotsKeepIdentity(t: Table, a: Action, i: nat)
    requires Inv(t) && i < |t.slots| && t.slots[i].count > 0 && t.slots[i].dev != 0
    ensures |Next(t, a).slots| == |t.slots|
    ensures Next(t, a).slots[i].dev == t.slots[i].dev && Next(t, a).slots[i].num == t.slots[i].num
  {
    if a.Wake? {
      WakeUsed(t, a.id, i);
    }
  }

  // nothing that is not on disk is in a slot that may be taken
  ghost predicate Tidy(t: Table) {
    && (forall i :: 0 <= i < |t.slots| && t.slots[i].count == 0 ==> !t.slots[i].dirty)
    && (forall id :: id in t.calls && (t.calls[id].Matching? || t.calls[id].Returning?) && t.calls[id].e < |t.slots| ==>
          !t.slots[t.calls[id].e].dirty)
  }

  lemma SearchTidy(t: Table, id: nat, dev: nat, num: nat, e: nat)
    requires Tidy(t) && e < |t.slots| && !t.slots[e].dirty
    ensures Tidy(Search(t, id, dev, num, e))
  {}

  lemma ReturnTidy(t: Table, id: nat)
    requires Inv(t) && Tidy(t) && id in t.calls && t.calls[id].Returning?
    ensures var c := t.calls[id]; Tidy(AddCount(t, c.e, -1).(calls := t.calls[id := Holding(c.dev, c.num, c.i)]))
  {
    assert CallOk(t, id);
  }

  lemma TakeTidy(t: Table, id: nat)
    requires Inv(t) && Tidy(t) && id in t.calls && t.calls[id].Matching?
    ensures var c := t.calls[id]; Tidy(AddCount(t, c.i, 1).(calls := t.calls[id := Returning(c.dev, c.num, c.e, c.i)]))
  {
    assert CallOk(t, id);
  }

  lemma AwakeTidy(t: Table, id: nat)
    requires Inv(t) && Tidy(t) && id in t.calls
    ensures Tidy(Awake(t, id, t.calls[id]))
  {
    assert CallOk(t, id);
    match t.calls[id]
    case Clearing(dev, num, e) =>
      if !t.slots[e].locked && !t.slots[e].dirty && t.slots[e].count == 0 {
        SearchTidy(SetSlot(t, e, EMPTY), id, dev, num, e);
      }
    case Matching(dev, num, e, i) =>
      if !t.slots[i].locked {
        if Matches(t.slots[i], dev, num) { TakeTidy(t, id); } else { SearchTidy(t, id, dev, num, e); }
      }
    case Returning(dev, num, e, i) => if !t.slots[e].locked { ReturnTidy(t, id); }
    case Holding(_, _, _) =>
  }

  // who dirties an inode holds it, and nobody clears it
  lemma ModifyTidy(t: Table, id: nat)
    requires Inv(t) && Tidy(t)
    ensures Tidy(Next(t, Modify(id)))
  {
    if id in t.calls && t.calls[id].Holding? {
      assert CallOk(t, id) && id in Users(t, t.calls[id].i);
      forall x | x in t.calls && (t.calls[x].Matching? || t.calls[x].Returning?)
        ensures t.calls[x].e != t.calls[id].i
      {
        assert CallOk(t, x) && x != id;
      }
    }
  }

  // the driver dirties nothing
  lemma FlagsTidy(t: Table, i: nat, h: Slot)
    requires Tidy(t) && i < |t.slots| && h.count == t.slots[i].count && (h.dirty ==> t.slots[i].dirty)
    ensures Tidy(SetSlot(t, i, h))
  {}

  lemma IputTidy(t: Table, id: nat)
    requires Tidy(t) && |t.slots| > 0
    ensures Tidy(Next(t, Iput(id)))
  {}

  /** No inode is lost: a slot that nobody uses is clean after every step. */
  lemma UnusedAreClean(t: Table, a: Action)
    requires Inv(t) && Tidy(t)
    ensures Tidy(Next(t, a))
  {
    match a
    case Iget(id, dev, num) =>
    case Wake(id) => if id in t.calls { AwakeTidy(t, id); }
    case Iput(id) => IputTidy(t, id);
    case Modify(id) => ModifyTidy(t, id);
    case Lock(i) => if i < |t.slots| { FlagsTidy(t, i, t.slots[i].(locked := true)); }
    case Clean(i) => if i < |t.slots| { FlagsTidy(t, i, t.slots[i].(dirty := false)); }
    case Unlock(i) => if i < |t.slots| { FlagsTidy(t, i, t.slots[i].(locked := false)); }
  }

  lemma WakeChanges(t: Table, id: nat, i: nat)
    requires Inv(t) && i < |t.slots| && !SameIdentity(t, Next(t, Wake(id)), i)
    ensures t.slots[i].dev == 0 || (t.slots[i].count == 0 && !t.slots[i].locked && !t.slots[i].dirty)
  {
    assert CallOk(t, id);
    match t.calls[id]
    case Clearing(dev, num, e) => if e != i { SearchUsed(SetSlot(t, e, EMPTY), id, dev, num, e, i); }
    case Matching(dev, num, e, _) => if e != i { SearchUsed(t, id, dev, num, e, i); }
    case Returning(_, _, _, _) =>
    case Holding(_, _, _) =>
  }

  /** A slot becomes another inode only while it has no device, or is unused, unlocked and clean. */
  lemma OnlyIdleSlotsChange(t: Table, a: Action, i: nat)
    requires Inv(t) && i < |t.slots| && !SameIdentity(t, Next(t, a), i)
    ensures t.slots[i].dev == 0 || (t.slots[i].count == 0 && !t.slots[i].locked && !t.slots[i].dirty)
  {
    if a.Wake? { WakeChanges(t, a.id, i); }
  }

  function Run(t: Table, actions: seq<Action>): Table
    requires |t.slots| > 0
    decreases |actions|
  {
    if actions == [] then t
    else if |Next(t, actions[0]).slots| == 0 then t
    else Run(Next(t, actions[0]), actions[1..])
  }

  lemma {:induction false} RunKeeps(t: Table, actions: seq<Action>)
    requires Inv(t)
    ensures Inv(Run(t, actions)) && (Tidy(t) ==> Tidy(Run(t, actions)))
    decreases |actions|
  {
    if actions != [] {
      NextKeeps(t, actions[0]);
      if Tidy(t) { UnusedAreClean(t, actions[0]); }
      RunKeeps(Next(t, actions[0]), actions[1..]);
    }
  }

  /** Over any interleaving: two callers that hold the same inode hold the same slot, and no
      other slot carries it. */
  lemma HoldersShareOneSlot(t: Table, actions: seq<Action>, id: nat, id2: nat, k: nat)
    requires Inv(t)
    requires var u := Run(t, actions); id in u.calls && id2 in u.calls && u.calls[id].Holding? && u.calls[id2].Holding?
    requires var u := Run(t, actions);
             u.calls[id].dev == u.calls[id2].dev && u.calls[id].num == u.calls[id2].num && k < |u.slots|
    ensures var u := Run(t, actions);
            && u.calls[id].i == u.calls[id2].i
            && (Matches(u.slots[k], u.calls[id].dev, u.calls[id].num) <==> k == u.calls[id].i)
  {
    RunKeeps(t, actions);
    var u := Run(t, actions);
    assert CallOk(u, id) && CallOk(u, id2);
  }

  lemma HeldStays(t: Table, a: Action, id: nat)
    requires |t.slots| > 0 && id in t.calls && t.calls[id].Holding? && a != Iput(id)
    ensures id in Next(t, a).calls && Next(t, a).calls[id] == t.calls[id]
  {}

  /** From iget to iput the slot stays the inode that was asked for. */
  lemma {:induction false} HeldSlotKeepsIdentity(t: Table, actions: seq<Action>, id: nat)
    requires Inv(t) && id in t.calls && t.calls[id].Holding? && Iput(id) !in actions
    ensures var u := Run(t, actions);
            && id in u.calls && u.calls[id] == t.calls[id] && t.calls[id].i < |u.slots|
            && Matches(u.slots[t.calls[id].i], t.calls[id].dev, t.calls[id].num) && u.slots[t.calls[id].i].count > 0
    decreases |actions|
  {
    if actions == [] {
      assert CallOk(t, id) && id in Users(t, t.calls[id].i);
    } else {
      NextKeeps(t, actions[0]);
      assert actions[0] in actions;
      HeldStays(t, actions[0], id);
      HeldSlotKeepsIdentity(Next(t, actions[0]), actions[1..], id);
    }
  }

  // ----- what the scan picks --------------------------------------------------------

  function Around(last: nat, d: int, size: nat): int { if last + d < size then last + d else last + d - size }

  // none is picked only if the n slots after last are all in use
  lemma {:induction false} PickMisses(slots: seq<Slot>, last: nat, n: nat, e: int, d: int)
    requires last < |slots| && n <= |slots| && 1 <= d <= n && Pick(slots, last, n, e).e == NONE
    ensures slots[Around(last, d, |slots|)].count != 0
    decreases n
  {
    var next := if last + 1 >= |slots| then 0 else last + 1;
    assert next == Around(last, 1, |slots|);
    PickKeepsBest(slots, next, n - 1, next);
    if d > 1 {
      PickMisses(slots, next, n - 1, e, d - 1);
    }
  }

  lemma {:induction false} PickKeepsBest(slots: seq<Slot>, last: nat, n: nat, e: int)
    requires 0 <= e < |slots|
    ensures Pick(slots, last, n, e).e != NONE
    decreases n
  {
    if n > 0 {
      var next := if last + 1 >= |slots| then 0 else last + 1;
      PickKeepsBest(slots, next, n - 1, if slots[next].count != 0 then e else next);
    }
  }

  /** get_empty_inode gives up exactly when every slot is in use. */
  lemma PickFailsWhenFull(slots: seq<Slot>, last: nat)
    requires |slots| > 0
    ensures Pick(slots, last, |slots|, NONE).e == NONE <==> forall i :: 0 <= i < |slots| ==> slots[i].count != 0
  {
    if Pick(slots, last, |slots|, NONE).e == NONE {
      var from := if last < |slots| then last else |slots| - 1;
      forall i | 0 <= i < |slots|
        ensures slots[i].count != 0
      {
        PickMisses(slots, from, |slots|, NONE, if i > from then i - from else i - from + |slots|);
      }
    }
  }

  // a slot that can be had without waiting
  predicate Ready(h: Slot) { h.count == 0 && !h.dirty && !h.locked }

  /** Of the n slots after last the scan takes the first that is unused, clean and unlocked, at
      distance d, and stays there; or else, with d zero, goes round. */
  lemma {:induction false} PickIsReady(slots: seq<Slot>, last: nat, n: nat, e: int) returns (d: nat)
    requires last < |slots| && n <= |slots|
    ensures d <= n && forall x :: 1 <= x <= n && (d > 0 ==> x < d) ==> !Ready(slots[Around(last, x, |slots|)])
    ensures var p, at := Pick(slots, last, n, e), Around(last, d, |slots|);
            && (d > 0 ==> Ready(slots[at]) && p == Picked(at, at))
            && (d == 0 ==> p.last == Around(last, n, |slots|))
    decreases n
  {
    d := 0;
    if n > 0 {
      var next := if last + 1 >= |slots| then 0 else last + 1;
      assert next == Around(last, 1, |slots|);
      if Ready(slots[next]) { return 1; }
      d := PickIsReady(slots, next, n - 1, if slots[next].count != 0 then e else next);
      forall x | 1 <= x <= n && (d > 0 ==> x < d + 1) ensures !Ready(slots[Around(last, x, |slots|)]) {
        AroundNext(last, x, |slots|);
      }
      AroundNext(last, n, |slots|);
      if d > 0 {
        d := d + 1;
        AroundNext(last, d, |slots|);
      }
    }
  }

  lemma AroundNext(last: nat, x: nat, size: nat)
    requires last < size && 1 <= x <= size
    ensures Around(last, x, size) == Around(Around(last, 1, size), x - 1, size) && 0 <= Around(last, x, size) < size
  {}

  /** It is clean and unlocked if any unused slot is. */
  lemma PickIsReadyIff(slots: seq<Slot>, last: nat)
    requires last < |slots|
    ensures var p := Pick(slots, last, |slots|, NONE);
            p.last < |slots| && (p.e != NONE && Ready(slots[p.e]) <==> exists i :: 0 <= i < |slots| && Ready(slots[i]))
  {
    var d := PickIsReady(slots, last, |slots|, NONE);
    if d == 0 {
      forall i | 0 <= i < |slots| ensures !Ready(slots[i]) {
        var x := if i > last then i - last else i - last + |slots|;
        assert Around(last, x, |slots|) == i;
      }
    }
  }

  // ----- when iget finds no slot, and that it returns --------------------------------

  predicate Serves(a: Action, id: nat) { a == Wake(id) || a.Lock? || a.Clean? || a.Unlock? }

  ghost predicate AllInUse(slots: seq<Slot>) { forall i :: 0 <= i < |slots| ==> slots[i].count != 0 }

  // after those actions the call id has its inode
  ghost predicate Gets(t: Table, id: nat, dev: nat, num: nat, actions: seq<Action>) {
    && (forall k :: 0 <= k < |actions| ==> Serves(actions[k], id))
    && |t.slots| > 0
    && var u := Run(t, actions);
       id in u.calls && u.calls[id].Holding? && u.calls[id].dev == dev && u.calls[id].num == num
  }

  lemma GetsLater(t: Table, id: nat, dev: nat, num: nat, a: Action, rest: seq<Action>)
    requires |t.slots| > 0 && Serves(a, id) && Gets(Next(t, a), id, dev, num, rest)
    ensures Gets(t, id, dev, num, [a] + rest)
  {
    assert ([a] + rest)[1..] == rest;
  }

  // the driver unlocks slot i, and the call runs on
  lemma GetsUnlocked(t: Table, id: nat, dev: nat, num: nat, i: nat, rest: seq<Action>) returns (actions: seq<Action>)
    requires Inv(t) && |Next(t, Unlock(i)).slots| > 0
    requires Gets(Next(Next(t, Unlock(i)), Wake(id)), id, dev, num, rest)
    ensures Gets(t, id, dev, num, actions)
  {
    GetsLater(Next(t, Unlock(i)), id, dev, num, Wake(id), rest);
    GetsLater(t, id, dev, num, Unlock(i), [Wake(id)] + rest);
    actions := [Unlock(i)] + ([Wake(id)] + rest);
  }

  lemma ReturningGets(t: Table, id: nat) returns (actions: seq<Action>)
    requires Inv(t) && id in t.calls && t.calls[id].Returning?
    ensures Gets(t, id, t.calls[id].dev, t.calls[id].num, actions)
  {
    var c := t.calls[id];
    assert CallOk(t, id);
    NextKeeps(t, Unlock(c.e));
    NextKeeps(Next(t, Unlock(c.e)), Wake(id));
    actions := GetsUnlocked(t, id, c.dev, c.num, c.e, []);
  }

  // a call whose slot carries the inode asked for
  lemma MatchedGets(t: Table, id: nat) returns (actions: seq<Action>)
    requires Inv(t) && id in t.calls && t.calls[id].Matching?
    requires t.calls[id].i < |t.slots| && Matches(t.slots[t.calls[id].i], t.calls[id].dev, t.calls[id].num)
    ensures Gets(t, id, t.calls[id].dev, t.calls[id].num, actions)
  {
    var c := t.calls[id];
    NextKeeps(t, Unlock(c.i));
    NextKeeps(Next(t, Unlock(c.i)), Wake(id));
    actions := ReturningGets(Next(Next(t, Unlock(c.i)), Wake(id)), id);
    actions := GetsUnlocked(t, id, c.dev, c.num, c.i, actions);
  }

  // what iget's loop leaves comes to its end
  lemma SearchGets(t: Table, u: Table, id: nat, dev: nat, num: nat, e: nat) returns (actions: seq<Action>)
    requires e < |t.slots| && u == Search(t, id, dev, num, e) && Inv(u)
    ensures Gets(u, id, dev, num, actions)
  {
    actions := [];
    if u.calls[id].Matching? { actions := MatchedGets(u, id); }
  }

  lemma MatchingGets(t: Table, id: nat) returns (actions: seq<Action>)
    requires Inv(t) && id in t.calls && t.calls[id].Matching?
    ensures Gets(t, id, t.calls[id].dev, t.calls[id].num, actions)
  {
    var c := t.calls[id];
    assert CallOk(t, id);
    if Matches(t.slots[c.i], c.dev, c.num) {
      actions := MatchedGets(t, id);
    } else {
      var u := Next(t, Unlock(c.i));
      NextKeeps(t, Unlock(c.i));
      NextKeeps(u, Wake(id));
      actions := SearchGets(u, Next(u, Wake(id)), id, c.dev, c.num, c.e);
      actions := GetsUnlocked(t, id, c.dev, c.num, c.i, actions);
    }
  }

  // the driver writes slot e
  function Written(t: Table, e: nat): Table
    requires |t.slots| > 0
  {
    var u := Next(t, Lock(e));
    var v := if |u.slots| > 0 then Next(u, Clean(e)) else u;
    if |v.slots| > 0 then Next(v, Unlock(e)) else v
  }

  lemma WrittenSlots(t: Table, e: nat)
    requires e < |t.slots|
    ensures Written(t, e).calls == t.calls
    ensures Written(t, e).slots == t.slots[e := t.slots[e].(dirty := false, locked := false)]
  {}

  lemma WrittenKeeps(t: Table, e: nat)
    requires Inv(t)
    ensures Inv(Written(t, e))
  {
    NextKeeps(t, Lock(e));
    NextKeeps(Next(t, Lock(e)), Clean(e));
    NextKeeps(Next(Next(t, Lock(e)), Clean(e)), Unlock(e));
  }

  lemma GetsWritten(t: Table, id: nat, dev: nat, num: nat, e: nat, rest: seq<Action>) returns (actions: seq<Action>)
    requires Inv(t) && Gets(Written(t, e), id, dev, num, rest)
    ensures Gets(t, id, dev, num, actions)
  {
    var u := Next(t, Lock(e));
    NextKeeps(t, Lock(e));
    var v := Next(u, Clean(e));
    NextKeeps(u, Clean(e));
    GetsLater(v, id, dev, num, Unlock(e), rest);
    GetsLater(u, id, dev, num, Clean(e), [Unlock(e)] + rest);
    GetsLater(t, id, dev, num, Lock(e), [Clean(e)] + ([Unlock(e)] + rest));
    actions := [Lock(e)] + ([Clean(e)] + ([Unlock(e)] + rest));
  }

  lemma UnusedGets(t: Table, id: nat) returns (actions: seq<Action>)
    requires Inv(t) && id in t.calls && t.calls[id].Clearing?
    requires t.calls[id].e < |t.slots| && t.slots[t.calls[id].e].count == 0
    ensures Gets(t, id, t.calls[id].dev, t.calls[id].num, actions)
  {
    var c := t.calls[id];
    var u := Written(t, c.e);
    WrittenSlots(t, c.e);
    WrittenKeeps(t, c.e);
    NextKeeps(u, Wake(id));
    actions := SearchGets(SetSlot(u, c.e, EMPTY), Next(u, Wake(id)), id, c.dev, c.num, c.e);
    GetsLater(u, id, c.dev, c.num, Wake(id), actions);
    actions := GetsWritten(t, id, c.dev, c.num, c.e, [Wake(id)] + actions);
  }

  lemma ChooseOutcome(t: Table, id: nat, dev: nat, num: nat)
    requires |t.slots| > 0
    ensures var u := Choose(t, id, dev, num);
            && u.slots == t.slots
            && (AllInUse(t.slots) ==> u.panicked && u.calls == t.calls)
            && (!AllInUse(t.slots) ==>
                  && u.panicked == t.panicked && id in u.calls && u.calls[id].Clearing?
                  && u.calls[id].dev == dev && u.calls[id].num == num
                  && u.calls[id].e < |t.slots| && t.slots[u.calls[id].e].count == 0)
  {
    PickFailsWhenFull(t.slots, t.last);
  }

  lemma ChooseGets(t: Table, id: nat, dev: nat, num: nat) returns (actions: seq<Action>)
    requires Inv(t) && Detached(t, id) && dev != 0 && !AllInUse(t.slots)
    ensures Gets(Choose(t, id, dev, num), id, dev, num, actions)
  {
    ChooseOutcome(t, id, dev, num);
    ChooseKeeps(t, id, dev, num);
    actions := UnusedGets(Choose(t, id, dev, num), id);
  }

  lemma ClearingGets(t: Table, id: nat) returns (actions: seq<Action>)
    requires Inv(t) && id in t.calls && t.calls[id].Clearing? && !AllInUse(t.slots)
    ensures Gets(t, id, t.calls[id].dev, t.calls[id].num, actions)
  {
    var c := t.calls[id];
    assert CallOk(t, id);
    if t.slots[c.e].count == 0 {
      actions := UnusedGets(t, id);
    } else {
      var u := Written(t, c.e);
    WrittenSlots(t, c.e);
    WrittenKeeps(t, c.e);
      WrittenInUse(t.slots, u.slots, c.e);
      actions := ChooseGets(u, id, c.dev, c.num);
      GetsLater(u, id, c.dev, c.num, Wake(id), actions);
      actions := GetsWritten(t, id, c.dev, c.num, c.e, [Wake(id)] + actions);
    }
  }

  lemma WrittenInUse(slots: seq<Slot>, slots': seq<Slot>, e: nat)
    requires e < |slots| && slots' == slots[e := slots[e].(dirty := false, locked := false)]
    ensures AllInUse(slots') <==> AllInUse(slots)
  {
    assert forall i :: 0 <= i < |slots| ==> slots'[i].count == slots[i].count;
  }

  /** Wherever a call of iget stands, it gets its inode when nobody but the disk driver acts
      meanwhile, provided that a slot is unused if it still has none. */
  lemma WaitingGets(t: Table, id: nat) returns (actions: seq<Action>)
    requires Inv(t) && id in t.calls && (t.calls[id].Clearing? ==> !AllInUse(t.slots))
    ensures Gets(t, id, t.calls[id].dev, t.calls[id].num, actions)
  {
    match t.calls[id]
    case Clearing(_, _, _) => actions := ClearingGets(t, id);
    case Matching(_, _, _, _) => actions := MatchingGets(t, id);
    case Returning(_, _, _, _) => actions := ReturningGets(t, id);
    case Holding(_, _, _) => actions := [];
  }

  lemma {:induction false} NoCall(t: Table, id: nat, actions: seq<Action>)
    requires |t.slots| > 0 && id !in t.calls && forall k :: 0 <= k < |actions| ==> Serves(actions[k], id)
    ensures id !in Run(t, actions).calls
    decreases |actions|
  {
    if actions != [] {
      assert Serves(actions[0], id);
      if |Next(t, actions[0]).slots| > 0 { NoCall(Next(t, actions[0]), id, actions[1..]); }
    }
  }

  /** Left to itself and the disk driver, a call of iget returns its inode exactly when some slot is
      unused as it begins, even where the inode is in the table already; else it is a panic. */
  lemma ReturnsIff(t: Table, id: nat, dev: nat, num: nat)
    requires Inv(t) && id !in t.calls && dev != 0
    ensures (exists actions :: Gets(Next(t, Iget(id, dev, num)), id, dev, num, actions)) <==> !AllInUse(t.slots)
    ensures Next(t, Iget(id, dev, num)).panicked <==> t.panicked || AllInUse(t.slots)
  {
    var u := Next(t, Iget(id, dev, num));
    ChooseOutcome(t, id, dev, num);
    if AllInUse(t.slots) {
      forall actions | Gets(u, id, dev, num, actions) ensures false { NoCall(u, id, actions); }
    } else {
      var actions := ChooseGets(t, id, dev, num);
    }
  }

  ghost predicate Initial(t: Table) {
    |t.slots| > 0 && t.calls == map[] && forall i :: 0 <= i < |t.slots| ==>
      t.slots[i].dev == 0 && t.slots[i].count == 0 && !t.slots[i].dirty
  }

  lemma InitialInv(t: Table)
    requires Initial(t)
    ensures Inv(t) && Tidy(t)
  {
    forall i | 0 <= i < |t.slots| ensures t.slots[i].count == |Users(t, i)| { assert Users(t, i) == {}; }
  }

  // ----- the scans as they run ------------------------------------------------------

  class InodeTable {
    const slots: array<Slot>
    var last: nat

    constructor (size: nat)
      requires size > 0
      ensures fresh(slots) && slots.Length == size && last < size
      ensures forall i :: 0 <= i < size ==> slots[i] == Slot(0, 0, 0, false, false)
    {
      slots := new Slot[size](_ => Slot(0, 0, 0, false, false));
      last := 0;
    }

    // the inner loop of get_empty_inode
    method PickEmpty() returns (e: int)
      requires slots.Length > 0
      modifies this`last
      ensures Picked(e, last) == Pick(slots[..], old(last), slots.Length, NONE)
      ensures old(last) < slots.Length ==>
        (e != NONE && Ready(slots[e]) <==> exists i :: 0 <= i < slots.Length && Ready(slots[i]))
    {
      if last < slots.Length { PickIsReadyIff(slots[..], last); }
      e := NONE;
      var i := slots.Length;
      while i > 0
        invariant 0 <= i <= slots.Length
        invariant Pick(slots[..], last, i, e) == Pick(slots[..], old(last), slots.Length, NONE)
      {
        last := if last + 1 >= slots.Length then 0 else last + 1;
        i := i - 1;
        if slots[last].count == 0 {
          e := last;
          if !slots[e].dirty && !slots[e].locked { return; }
        }
      }
    }

    // one pass of iget over the table
    method ScanTable(dev: nat, num: nat) returns (r: int)
      ensures r == ScanFrom(slots[..], dev, num, 0)
    {
      r := 0;
      while r < slots.Length
        invariant 0 <= r <= slots.Length && ScanFrom(slots[..], dev, num, r) == ScanFrom(slots[..], dev, num, 0)
      {
        if slots[r].dev == dev && slots[r].num == num { return; }
        r := r + 1;
      }
      r := NONE;
    }
  }
}
