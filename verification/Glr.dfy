/** The stack surgery of the GLR runtime in bison/biscase/yy_scan_tab.c: one array of items holds
    parser states and deferred actions (options), and a pointer is an index into it. */
module Glr {
  const NIL := -1
  const YYEMPTY := -2

  /** What a state stands for: its value once resolved, before that its chain of options. */
  datatype Meaning = Value(val: int) | First(option: int)

  datatype Item =
    | State(lrState: int, posn: int, resolved: bool, meaning: Meaning, pred: int)
    | Option(rule: int, state: int, lookahead: int, next: int)

  // ----- chains of options ----------------------------------------------------------

  predicate ChainLink(items: seq<Item>, c: seq<nat>, i: nat)
    requires i < |c|
  {
    c[i] < |items| && items[c[i]].Option? && items[c[i]].next == if i + 1 < |c| then c[i + 1] else NIL
  }

  // c is the chain from x to its end
  ghost predicate Chain(items: seq<Item>, x: int, c: seq<nat>) {
    x == (if c == [] then NIL else c[0]) && forall i {:trigger ChainLink(items, c, i)} :: 0 <= i < |c| ==>
      ChainLink(items, c, i)
  }

  ghost predicate Descending(c: seq<nat>) { forall i, j :: 0 <= i < j < |c| ==> c[i] > c[j] }

  lemma ChainTail(items: seq<Item>, x: int, c: seq<nat>)
    requires Chain(items, x, c) && c != []
    ensures ChainLink(items, c, 0) && Chain(items, items[c[0]].next, c[1..])
  {
    assert ChainLink(items, c, 0);
    forall i | 0 <= i < |c| - 1 ensures ChainLink(items, c[1..], i) { assert ChainLink(items, c, i + 1); }
  }

  lemma {:induction false} ChainUnique(items: seq<Item>, x: int, c: seq<nat>, d: seq<nat>)
    requires Chain(items, x, c) && Chain(items, x, d)
    ensures c == d
    decreases |c|
  {
    if c != [] {
      ChainTail(items, x, c);
      ChainTail(items, x, d);
      ChainUnique(items, items[c[0]].next, c[1..], d[1..]);
      assert c == [c[0]] + c[1..] && d == [d[0]] + d[1..];
    }
  }

  lemma ChainFrame(items: seq<Item>, after: seq<Item>, x: int, c: seq<nat>)
    requires Chain(items, x, c) && |after| == |items|
    requires forall i :: 0 <= i < |c| && c[i] < |items| ==> after[c[i]] == items[c[i]]
    ensures Chain(after, x, c)
  {
    forall i | 0 <= i < |c| ensures ChainLink(after, c, i) { assert ChainLink(items, c, i); }
  }

  ghost function Members(c: seq<nat>): set<nat> { set x | x in c }

  // ----- merging two chains ---------------------------------------------------------

  function Head(c: seq<nat>): int { if c == [] then NIL else c[0] }

  /** In the middle of a merge: from first on, done is merged and rest0 follows; rest1 goes on
      from another pointer, below all of done. The two may run together. */
  ghost predicate Merging(items: seq<Item>, first: int, done: seq<nat>, rest0: seq<nat>, rest1: seq<nat>) {
    && Chain(items, first, done + rest0) && Chain(items, Head(rest1), rest1)
    && Descending(done + rest0) && Descending(done + rest1)
  }

  lemma ChainSuffix(items: seq<Item>, first: int, done: seq<nat>, rest: seq<nat>)
    requires Chain(items, first, done + rest)
    ensures Chain(items, Head(rest), rest)
    ensures done != [] ==> ChainLink(items, done + rest, |done| - 1) && items[done[|done| - 1]].next == Head(rest)
  {
    forall i | 0 <= i < |rest| ensures ChainLink(items, rest, i) { assert ChainLink(items, done + rest, |done| + i); }
    assert done != [] ==> ChainLink(items, done + rest, |done| - 1);
  }

  // the two chains run together from here on
  lemma MergeMeets(items: seq<Item>, first: int, done: seq<nat>, rest0: seq<nat>, rest1: seq<nat>)
    requires Merging(items, first, done, rest0, rest1) && Head(rest0) == Head(rest1)
    ensures rest0 == rest1
  {
    ChainSuffix(items, first, done, rest0);
    ChainUnique(items, Head(rest0), rest0, rest1);
  }

  // the next option of the first chain comes next
  lemma MergeAdvances(items: seq<Item>, first: int, done: seq<nat>, rest0: seq<nat>, rest1: seq<nat>)
    requires Merging(items, first, done, rest0, rest1) && rest0 != [] && rest1 != [] && rest0[0] > rest1[0]
    ensures Merging(items, first, done + [rest0[0]], rest0[1..], rest1)
  {
    assert done + rest0 == done + [rest0[0]] + rest0[1..];
    Orders(done, rest1, rest0);
  }

  // the pointer behind done, the one yyz0p points at, is set to y; states may change
  ghost predicate Relinked(items: seq<Item>, first: int, after: seq<Item>, newFirst: int, done: seq<nat>, y: int) {
    && |after| == |items|
    && newFirst == (if done == [] then y else first)
    && (forall x :: 0 <= x < |items| && items[x].Option? && (done == [] || x != done[|done| - 1]) ==>
        after[x] == items[x])
    && (done != [] ==> done[|done| - 1] < |items| && items[done[|done| - 1]].Option?
                       && after[done[|done| - 1]] == items[done[|done| - 1]].(next := y))
  }

  lemma RelinkedChain(items: seq<Item>, first: int, after: seq<Item>, newFirst: int, done: seq<nat>, rest0: seq<nat>,
        rest1: seq<nat>)
    requires Merging(items, first, done, rest0, rest1) && Relinked(items, first, after, newFirst, done, Head(rest1))
    ensures Chain(after, newFirst, done + rest1)
  {
    var c, d := done + rest0, done + rest1;
    forall i | 0 <= i < |d| ensures ChainLink(after, d, i) {
      assert i < |done| ==> ChainLink(items, c, i) && c[i] == d[i];
      assert i >= |done| ==> ChainLink(items, rest1, i - |done|) && rest1[i - |done|] == d[i];
      assert i < |done| - 1 ==> c[i + 1] == d[i + 1];
      assert done != [] ==> d[|done| - 1] == done[|done| - 1];
    }
  }

  // the next option of the second chain is put between done and rest0
  lemma MergeInserts(items: seq<Item>, first: int, linked: seq<Item>, newFirst: int, done: seq<nat>, rest0: seq<nat>,
        rest1: seq<nat>)
    requires Merging(items, first, done, rest0, rest1) && rest0 != [] && rest1 != [] && rest0[0] < rest1[0]
    requires Relinked(items, first, linked, newFirst, done, rest1[0])
    ensures ChainLink(items, rest1, 0)
    ensures var after := linked[rest1[0] := linked[rest1[0]].(next := Head(rest0))];
            Merging(after, newFirst, done + [rest1[0]], rest0, rest1[1..])
  {
    var z := rest1[0];
    var now := done + [z];
    ChainTail(items, z, rest1);
    ChainSuffix(items, first, done, rest0);
    RelinkedChain(items, first, linked, newFirst, done, rest0, rest1);
    assert done + rest1 == now + rest1[1..];
    var after := linked[z := linked[z].(next := Head(rest0))];
    assert linked[z] == items[z] by { assert done != [] ==> (done + rest1)[|done| - 1] > (done + rest1)[|done|]; }
    Orders(done, rest0, rest1);
    forall i | 0 <= i < |rest1| - 1 ensures ChainLink(after, rest1[1..], i) { assert ChainLink(items, rest1, i + 1); }
    forall i | 0 <= i < |now + rest0| ensures ChainLink(after, now + rest0, i) {
      if i < |now| {
        assert ChainLink(linked, done + rest1, i);
      } else {
        assert ChainLink(items, rest0, i - |now|);
      }
    }
  }

  // where the inserted option stands
  lemma Orders(done: seq<nat>, rest0: seq<nat>, rest1: seq<nat>)
    requires Descending(done + rest0) && Descending(done + rest1) && rest0 != [] && rest1 != [] && rest0[0] < rest1[0]
    ensures Descending(done + [rest1[0]] + rest0)
    ensures forall i :: 0 <= i < |done| ==> done[i] > rest1[0]
    ensures forall i :: 0 <= i < |rest0| ==> rest1[0] > rest0[i] && (done == [] || done[|done| - 1] > rest0[i])
    ensures forall i :: 0 < i < |rest1| ==> rest1[0] > rest1[i] && (done == [] || done[|done| - 1] > rest1[i])
  {
    var a, b, d := done + rest0, done + rest1, done + [rest1[0]] + rest0;
    assert forall i :: 0 <= i < |rest0| ==> rest0[i] == a[|done| + i];
    assert forall i :: 0 <= i < |rest1| ==> rest1[i] == b[|done| + i];
    assert forall i :: 0 <= i < |done| ==> done[i] == a[i] == b[i];
    assert forall i :: 0 <= i < |d| ==>
      d[i] == if i < |done| then done[i] else if i == |done| then rest1[0] else rest0[i - |done| - 1];
  }

  function RhsFrom(items: seq<Item>, s: int): int { if 0 <= s < |items| && items[s].State? then items[s].pred else NIL }

  // the chain of options of an unresolved state
  ghost predicate Options(items: seq<Item>, s: nat, c: seq<nat>) {
    && s < |items| && items[s].State? && !items[s].resolved && items[s].meaning.First?
    && Chain(items, items[s].meaning.option, c) && Descending(c)
  }

  // only the links of some options changed, apart from state a
  ghost predicate OnlyLinks(items: seq<Item>, after: seq<Item>, a: nat, options: set<nat>) {
    && |after| == |items|
    && forall x: nat :: x < |items| && x != a ==>
         if x in options then items[x].Option? && after[x].Option? && after[x].(next := items[x].next) == items[x]
         else after[x] == items[x]
  }

  lemma MembersMove(c: seq<nat>, x: nat, rest: seq<nat>)
    ensures Members(c + [x]) == Members(c) + {x}
    ensures rest != [] ==> Members(rest) == {rest[0]} + Members(rest[1..])
  {
    assert rest != [] ==> rest == [rest[0]] + rest[1..];
  }

  lemma MembersJoin(c: seq<nat>, d: seq<nat>)
    ensures Members(c + d) == Members(c) + Members(d)
  {}

  /** Two states at one position of two right-hand sides, and the option chains of both. */
  datatype Pair = Pair(a: nat, b: nat, c0: seq<nat>, c1: seq<nat>)

  ghost function Touched(q: Pair): set<nat> { {q.a, q.b} + Members(q.c0) + Members(q.c1) }

  ghost predicate PairReady(items: seq<Item>, q: Pair) {
    && q.a < |items| && q.b < |items| && q.a != q.b && items[q.a].State? && items[q.b].State?
    && (!items[q.a].resolved && !items[q.b].resolved ==> Options(items, q.a, q.c0) && Options(items, q.b, q.c1))
  }

  ghost predicate MergedInto(items: seq<Item>, q: Pair, c: seq<nat>) {
    Options(items, q.a, c) && Options(items, q.b, c) && Members(c) == Members(q.c0) + Members(q.c1)
  }

  // what becomes of a pair
  ghost predicate PairMerged(before: seq<Item>, after: seq<Item>, q: Pair) {
    && q.a < |before| == |after| && q.b < |before| && before[q.a].State? && before[q.b].State? && after[q.a].State?
    && after[q.b].State?
    && (if before[q.a].resolved then
          after[q.a] == before[q.a] && after[q.b] == before[q.b].(resolved := true, meaning := before[q.a].meaning)
        else if before[q.b].resolved then
          after[q.b] == before[q.b] && after[q.a] == before[q.a].(resolved := true, meaning := before[q.b].meaning)
        else
          && after[q.a] == before[q.a].(meaning := after[q.a].meaning)
          && after[q.b] == before[q.b].(meaning := after[q.a].meaning)
          && exists c :: MergedInto(after, q, c))
  }

  ghost predicate Apart(pairs: seq<Pair>) {
    forall i, j :: 0 <= i < j < |pairs| ==> Touched(pairs[i]) !! Touched(pairs[j])
  }

  // the state at position j of the first right-hand side, and of the second
  ghost function LeftAt(items: seq<Item>, y0: nat, pairs: seq<Pair>, j: nat): int
    requires y0 < |items| && items[y0].Option? && j <= |pairs|
  {
    if j == 0 then items[y0].state else RhsFrom(items, pairs[j - 1].a)
  }

  ghost function RightAt(items: seq<Item>, y1: nat, pairs: seq<Pair>, j: nat): int
    requires y1 < |items| && items[y1].Option? && j <= |pairs|
  {
    if j == 0 then items[y1].state else RhsFrom(items, pairs[j - 1].b)
  }

  ghost predicate InLine(items: seq<Item>, y0: nat, y1: nat, pairs: seq<Pair>, j: nat)
    requires y0 < |items| && items[y0].Option? && y1 < |items| && items[y1].Option? && j < |pairs|
  {
    pairs[j].a == LeftAt(items, y0, pairs, j) && pairs[j].b == RightAt(items, y1, pairs, j)
  }

  /** The first i pairs are merged, and nothing else is touched. */
  ghost predicate MergedUpTo(before: seq<Item>, items: seq<Item>, pairs: seq<Pair>, i: int) {
    && |items| == |before| && 0 <= i <= |pairs|
    && (forall j :: 0 <= j < i ==> PairMerged(before, items, pairs[j]))
    && (forall x: nat :: x < |items| && (forall j :: 0 <= j < i ==> x !in Touched(pairs[j])) ==> items[x] == before[x])
  }

  // the pairs not yet come to are as they were
  lemma StillReady(before: seq<Item>, items: seq<Item>, pairs: seq<Pair>, i: nat)
    requires i < |pairs| && Apart(pairs) && PairReady(before, pairs[i]) && MergedUpTo(before, items, pairs, i)
    ensures PairReady(items, pairs[i]) && items[pairs[i].a] == before[pairs[i].a]
    ensures items[pairs[i].b] == before[pairs[i].b]
  {
    var q := pairs[i];
    forall x | x in Touched(q) && x < |items| ensures items[x] == before[x] {
      assert forall j :: 0 <= j < i ==> x !in Touched(pairs[j]);
    }
    assert q.a in Touched(q) && q.b in Touched(q);
    if !items[q.a].resolved && !items[q.b].resolved {
      ChainFrame(before, items, items[q.a].meaning.option, q.c0);
      ChainFrame(before, items, items[q.b].meaning.option, q.c1);
    }
  }

  // the pairs done stay as they are
  lemma StillMerged(before: seq<Item>, was: seq<Item>, items: seq<Item>, pairs: seq<Pair>, j: nat, i: nat)
    requires j < i < |pairs| && Apart(pairs) && PairMerged(before, was, pairs[j]) && |items| == |was|
    requires forall x: nat :: x < |items| && x !in Touched(pairs[i]) ==> items[x] == was[x]
    ensures PairMerged(before, items, pairs[j])
  {
    var q := pairs[j];
    assert q.a in Touched(q) && q.b in Touched(q);
    if !before[q.a].resolved && !before[q.b].resolved {
      var c :| MergedInto(was, q, c);
      forall k | 0 <= k < |c| && c[k] < |was| ensures items[c[k]] == was[c[k]] { assert c[k] in Members(c); }
      ChainFrame(was, items, was[q.a].meaning.option, c);
      assert MergedInto(items, q, c);
    }
  }

  lemma NowMerged(before: seq<Item>, was: seq<Item>, items: seq<Item>, q: Pair)
    requires PairMerged(was, items, q) && |before| == |was| && before[q.a] == was[q.a] && before[q.b] == was[q.b]
    ensures PairMerged(before, items, q)
  {}

  lemma MergeStep(before: seq<Item>, was: seq<Item>, items: seq<Item>, pairs: seq<Pair>, i: nat)
    requires i < |pairs| && Apart(pairs) && MergedUpTo(before, was, pairs, i) && PairReady(before, pairs[i])
    requires PairMerged(was, items, pairs[i])
    requires forall x: nat :: x < |items| && x !in Touched(pairs[i]) ==> items[x] == was[x]
    ensures MergedUpTo(before, items, pairs, i + 1)
    ensures items[pairs[i].a].pred == RhsFrom(before, pairs[i].a)
    ensures items[pairs[i].b].pred == RhsFrom(before, pairs[i].b)
  {
    StillReady(before, was, pairs, i);
    NowMerged(before, was, items, pairs[i]);
    forall j | 0 <= j < i + 1 ensures PairMerged(before, items, pairs[j]) {
      if j < i { StillMerged(before, was, items, pairs, j, i); }
    }
    forall x: nat | x < |items| && (forall j :: 0 <= j < i + 1 ==>
      x !in Touched(pairs[j])) ensures items[x] == before[x] {
      assert x !in Touched(pairs[i]);
    }
  }

  lemma MergeStops(items: seq<Item>, first: int, done: seq<nat>, rest0: seq<nat>)
    requires Merging(items, first, done, rest0, rest0) || Merging(items, first, done, rest0, [])
    ensures Merging(items, first, done + rest0, [], [])
    ensures Members(done + rest0) == Members(done) + Members(rest0)
  {
    assert done + rest0 + [] == done + rest0;
    MembersJoin(done, rest0);
  }

  // the options of a chain are options
  lemma NotOptions(items: seq<Item>, s: nat, c: seq<nat>)
    requires Options(items, s, c)
    ensures forall x :: x in c ==> x < |items| && items[x].Option?
  {
    forall x | x in c ensures x < |items| && items[x].Option? {
      var i :| 0 <= i < |c| && c[i] == x;
      assert ChainLink(items, c, i);
    }
  }

  // the second state takes over the chain of the first
  lemma MergeEnds(before: seq<Item>, last: seq<Item>, s0: nat, s1: nat, c: seq<nat>)
    requires Options(last, s0, c) && s0 < |before| && before[s0].State?
    requires last[s0] == before[s0].(meaning := last[s0].meaning)
    requires OnlyLinks(before, last, s0, Members(c))
    requires s1 < |last| == |before| && s1 != s0 && last[s1] == before[s1] && last[s1].State? && !last[s1].resolved
    ensures var after := last[s1 := last[s1].(meaning := First(last[s0].meaning.option))];
            && Options(after, s0, c) && Options(after, s1, c)
            && OnlyLinks(before[s1 := after[s1]], after, s0, Members(c))
  {
    NotOptions(last, s0, c);
    ChainFrame(last, last[s1 := last[s1].(meaning := First(last[s0].meaning.option))], Head(c), c);
  }

  // ----- stacks that are deleted -----------------------------------------------------

  // the stacks that are not deleted
  function Live(tops: seq<int>): seq<int>
    decreases |tops|
  {
    if tops == [] then [] else Live(tops[..|tops| - 1]) + if tops[|tops| - 1] == NIL then [] else [tops[|tops| - 1]]
  }

  // their marks
  function LiveMarks(tops: seq<int>, marks: seq<bool>): seq<bool>
    requires |tops| == |marks|
    decreases |tops|
  {
    if tops == [] then [] else LiveMarks(tops[..|tops| - 1], marks[..|tops| - 1]) + if tops[|tops| - 1] == NIL then []
    else [marks[|tops| - 1]]
  }

  lemma LiveStep(tops: seq<int>, marks: seq<bool>, i: nat)
    requires i < |tops| == |marks|
    ensures Live(tops[..i + 1]) == Live(tops[..i]) + if tops[i] == NIL then [] else [tops[i]]
    ensures LiveMarks(tops[..i + 1], marks[..i + 1]) ==
            LiveMarks(tops[..i], marks[..i]) + if tops[i] == NIL then [] else [marks[i]]
  {
    assert tops[..i + 1][..i] == tops[..i] && marks[..i + 1][..i] == marks[..i];
  }

  /** Exactly the places that are not nil survive, in their order, each with its own mark. */
  lemma {:induction false} LiveIsFilter(tops: seq<int>, marks: seq<bool>) returns (places: seq<nat>)
    requires |tops| == |marks|
    ensures |places| == |Live(tops)| == |LiveMarks(tops, marks)|
    ensures forall i, j :: 0 <= i < j < |places| ==> places[i] < places[j]
    ensures forall x: nat :: x in places <==> x < |tops| && tops[x] != NIL
    ensures forall i :: 0 <= i < |places| ==>
      places[i] < |tops| && Live(tops)[i] == tops[places[i]] && LiveMarks(tops, marks)[i] == marks[places[i]]
    decreases |tops|
  {
    places := [];
    if tops != [] {
      var n := |tops| - 1;
      places := LiveIsFilter(tops[..n], marks[..n]);
      forall x: nat | x in places ensures x < n { }
      if tops[n] != NIL { places := places + [n]; }
    }
  }

  // ----- the one stack left after a split --------------------------------------------

  // the states of a stack from its bottom to its top, each after the one below it
  ghost predicate Upward(items: seq<Item>, c: seq<nat>) {
    && (forall i, j :: 0 <= i < j < |c| ==> c[i] < c[j])
    && forall i {:trigger UpLink(items, c, i)} :: 0 <= i < |c| ==> UpLink(items, c, i)
  }

  predicate UpLink(items: seq<Item>, c: seq<nat>, i: nat)
    requires i < |c|
  {
    c[i] < |items| && items[c[i]].State? && items[c[i]].pred == if i > 0 then c[i - 1] else NIL
  }

  // the state at place j with its link turned to the one above it
  predicate TurnedAt(before: seq<Item>, after: seq<Item>, c: seq<nat>, j: nat)
    requires j < |c|
  {
    && c[j] < |before| == |after| && before[c[j]].State?
    && after[c[j]] == before[c[j]].(pred := if j + 1 < |c| then c[j + 1] else NIL)
  }

  // the links above place i are turned round, and nothing else is changed
  ghost predicate Turned(before: seq<Item>, after: seq<Item>, c: seq<nat>, i: nat) {
    && |after| == |before|
    && (forall j {:trigger TurnedAt(before, after, c, j)} :: i < j < |c| ==> TurnedAt(before, after, c, j))
    && (forall x: nat :: x < |before| && (i + 1 < |c| ==> x < c[i + 1]) ==> after[x] == before[x])
  }

  lemma TurnOne(before: seq<Item>, after: seq<Item>, c: seq<nat>, i: nat)
    requires Upward(before, c) && 0 < i < |c| && Turned(before, after, c, i)
    ensures c[i] < |after| && after[c[i]].State?
    ensures Turned(before, after[c[i] := after[c[i]].(pred := if i + 1 < |c| then c[i + 1] else NIL)], c, i - 1)
  {
    assert UpLink(before, c, i);
    assert after[c[i]] == before[c[i]];
    var now := after[c[i] := after[c[i]].(pred := if i + 1 < |c| then c[i + 1] else NIL)];
    forall j | i - 1 < j < |c| ensures TurnedAt(before, now, c, j) {
      if j > i { assert TurnedAt(before, after, c, j); }
    }
  }

  // the place of the j-th state above the split point: where it was moved, or turned where it was
  predicate MovedAt(before: seq<Item>, after: seq<Item>, c: seq<nat>, b: nat, j: nat)
    requires b + j + 1 < |c|
  {
    && c[b + j + 1] < |before| == |after| && before[c[b + j + 1]].State? && c[b] + j + 1 < |after|
    && after[c[b] + j + 1] == before[c[b + j + 1]].(pred := c[b] + j)
  }

  /** The first k states above the split point are moved next to it, each on top of the one
      before; the others are still where they were, linked upward; below nothing is changed. */
  ghost predicate Moved(before: seq<Item>, after: seq<Item>, c: seq<nat>, b: nat, k: int) {
    && |after| == |before| && 0 <= k && b + k < |c| && c[b] < |before|
    && (forall x: nat :: x <= c[b] ==> after[x] == before[x])
    && (forall j: nat {:trigger MovedAt(before, after, c, b, j)} :: j < k ==> MovedAt(before, after, c, b, j))
    && (forall j {:trigger TurnedAt(before, after, c, j)} :: b + k < j < |c| ==> TurnedAt(before, after, c, j))
  }

  lemma {:induction false} AscendGap(c: seq<nat>, i: nat, j: nat)
    requires i <= j < |c| && forall i, j :: 0 <= i < j < |c| ==> c[i] < c[j]
    ensures c[j] >= c[i] + (j - i)
    decreases j - i
  {
    if i < j { AscendGap(c, i, j - 1); }
  }

  lemma TurnedMoves(before: seq<Item>, after: seq<Item>, c: seq<nat>, b: nat)
    requires Upward(before, c) && b < |c| && Turned(before, after, c, b)
    ensures Moved(before, after, c, b, 0)
  {
    assert UpLink(before, c, b);
    forall j | b < j < |c| ensures TurnedAt(before, after, c, j) { }
  }

  // no state not yet moved is overwritten
  lemma MoveOne(before: seq<Item>, after: seq<Item>, c: seq<nat>, b: nat, k: nat)
    requires Upward(before, c) && b + k + 1 < |c| && Moved(before, after, c, b, k)
    ensures c[b] + 1 + k <= c[b + k + 1] < |after| && after[c[b + k + 1]].State?
    ensures after[c[b + k + 1]].pred == if b + k + 2 < |c| then c[b + k + 2] else NIL
    ensures Moved(before, after[c[b] + 1 + k := after[c[b + k + 1]].(pred := c[b] + k)], c, b, k + 1)
  {
    AscendGap(c, b, b + k + 1);
    assert UpLink(before, c, b + k + 1) && TurnedAt(before, after, c, b + k + 1);
    var now := after[c[b] + 1 + k := after[c[b + k + 1]].(pred := c[b] + k)];
    forall j: nat | j < k + 1 ensures MovedAt(before, now, c, b, j) {
      assert UpLink(before, c, b + j + 1);
      assert j < k ==> MovedAt(before, after, c, b, j);
    }
    forall j | b + k + 1 < j < |c| ensures TurnedAt(before, now, c, j) {
      assert TurnedAt(before, after, c, j) && c[j] > c[b + k + 1];
    }
  }

  // ----- the stack that is read -----------------------------------------------------

  // the places of the stack after it was moved together
  function Packed(c: seq<nat>, b: nat): (d: seq<nat>)
    requires b < |c|
    ensures |d| == |c| && forall i :: 0 <= i < |c| ==> d[i] == if i <= b then c[i] else c[b] + (i - b)
  {
    seq(|c|, i requires 0 <= i < |c| => if i <= b then c[i] else c[b] + (i - b))
  }

  // place d[i] holds what c[i] held, linked to d[i - 1]
  predicate KeptAt(before: seq<Item>, after: seq<Item>, c: seq<nat>, d: seq<nat>, i: nat)
    requires i < |c| == |d|
  {
    && c[i] < |before| && d[i] < |after| && before[c[i]].State?
    && after[d[i]] == before[c[i]].(pred := if i > 0 then d[i - 1] else NIL)
  }

  ghost predicate Kept(before: seq<Item>, after: seq<Item>, c: seq<nat>, d: seq<nat>)
    requires |c| == |d|
  {
    forall i {:trigger KeptAt(before, after, c, d, i)} :: 0 <= i < |c| ==> KeptAt(before, after, c, d, i)
  }

  /** What yycompressStack promises: read from bottom to top the states, their positions and their
      values are those from before, and above the split point they lie side by side. */
  lemma CompressKeepsStack(before: seq<Item>, after: seq<Item>, c: seq<nat>, b: nat)
    requires Upward(before, c) && b < |c| && Moved(before, after, c, b, |c| - b - 1)
    ensures Upward(after, Packed(c, b)) && Kept(before, after, c, Packed(c, b))
  {
    var d := Packed(c, b);
    forall i | 0 <= i < |c| ensures KeptAt(before, after, c, d, i) && UpLink(after, d, i) {
      assert UpLink(before, c, i);
      if i <= b {
        assert c[i] <= c[b];
      } else {
        assert MovedAt(before, after, c, b, i - b - 1);
      }
    }
  }

  // ----- the stack in place ----------------------------------------------------------

  class GlrStack {
    const items: array<Item>
    var nextFree: nat
    var spaceLeft: int
    var splitPoint: int
    var lastDeleted: int
    const tops: array<int>              // yytops: the top states of the parallel stacks
    const lookaheadNeeds: array<bool>
    var size: nat

    constructor (capacity: nat, blank: Item)
      ensures fresh(items) && items.Length == capacity && nextFree == 0 && spaceLeft == capacity
      ensures fresh(tops) && tops.Length == 16 && fresh(lookaheadNeeds) && lookaheadNeeds.Length == 16
      ensures size == 1 && splitPoint == NIL && lastDeleted == NIL && tops[0] == NIL
    {
      items := new Item[capacity](_ => blank);
      nextFree, spaceLeft, splitPoint, lastDeleted := 0, capacity, NIL, NIL;
      tops, lookaheadNeeds := new int[16](_ => NIL), new bool[16](_ => false);
      size := 1;
    }

    // *yyz0p = y, where yyz0p points into state s or into the last merged option
    method SetLink(s: nat, prev: int, y: int, ghost done: seq<nat>)
      requires s < items.Length && items[s].State? && items[s].meaning.First?
      requires if done == [] then prev == NIL else prev == done[|done| - 1] < items.Length && items[prev].Option?
      modifies items
      ensures items[s].State? && items[s].meaning.First? && items[s] == old(items[s]).(meaning := items[s].meaning)
      ensures Relinked(old(items[..]), old(items[s].meaning.option), items[..], items[s].meaning.option, done, y)
      ensures forall x :: 0 <= x < items.Length && x != s && x != prev ==> items[x] == old(items[x])
      ensures prev != NIL ==> items[s] == old(items[s])
    {
      if prev == NIL { items[s] := items[s].(meaning := First(y)); } else { items[prev] := items[prev].(next := y); }
    }

    ghost predicate Unresolved(s: nat)
      reads items
    {
      s < items.Length && items[s].State? && !items[s].resolved && items[s].meaning.First?
    }

    // the merge of the chains of s0 and s1 has come to rest0 and rest1
    ghost predicate InMerge(before: seq<Item>, s0: nat, s1: nat, done: seq<nat>, rest0: seq<nat>, rest1: seq<nat>,
          all: set<nat>)
      reads items
    {
      && Unresolved(s0) && s0 < |before| && before[s0].State? && items[s0] == before[s0].(meaning := items[s0].meaning)
      && Merging(items[..], items[s0].meaning.option, done, rest0, rest1)
      && Members(done) + Members(rest0) + Members(rest1) == all
      && OnlyLinks(before, items[..], s0, all)
    }

    // *yyz0p
    method Link(s0: nat, prev: int, ghost done: seq<nat>, ghost rest0: seq<nat>) returns (y: int)
      requires Unresolved(s0) && Chain(items[..], items[s0].meaning.option, done + rest0)
      requires prev == if done == [] then NIL else done[|done| - 1]
      ensures y == Head(rest0)
      ensures prev != NIL ==> prev < items.Length && items[prev].Option?
    {
      ChainSuffix(items[..], items[s0].meaning.option, done, rest0);
      y := if prev == NIL then items[s0].meaning.option else items[prev].next;
    }

    // the branch that puts an option of the second chain into the first
    method InsertOption(s0: nat, prev: int, y: nat, z: nat, ghost before: seq<Item>, ghost s1: nat,
          ghost done: seq<nat>, ghost rest0: seq<nat>, ghost rest1: seq<nat>, ghost all: set<nat>)
      returns (next: int)
      requires InMerge(before, s0, s1, done, rest0, rest1, all) && rest0 != [] && rest1 != []
      requires y == rest0[0] < rest1[0] == z
      requires prev == (if done == [] then NIL else done[|done| - 1])
      requires (prev != NIL ==> prev < items.Length && items[prev].Option?)
      requires s1 < items.Length && s1 != s0 && items[s1].State?
      modifies items
      ensures InMerge(before, s0, s1, done + [z], rest0, rest1[1..], all) && next == Head(rest1[1..])
      ensures items[s1] == old(items[s1])
    {
      ghost var was, first := items[..], items[s0].meaning.option;
      ChainTail(was, z, rest1);
      ChainSuffix(was, first, done, rest0);
      MembersMove(done, z, rest1);
      Orders(done, rest0, rest1);
      SetLink(s0, prev, z, done);
      ghost var linked := items[..];
      MergeInserts(was, first, linked, items[s0].meaning.option, done, rest0, rest1);
      next := items[z].next;
      items[z] := items[z].(next := y);
      assert items[..] == linked[z := linked[z].(next := y)];
    }

    // the first chain is at its end: the rest of the second is appended
    method AppendRest(s0: nat, prev: int, z1: int, ghost before: seq<Item>, ghost s1: nat, ghost done: seq<nat>,
          ghost rest1: seq<nat>, ghost all: set<nat>)
      requires InMerge(before, s0, s1, done, [], rest1, all) && z1 == Head(rest1)
      requires prev == (if done == [] then NIL else done[|done| - 1])
      requires (prev != NIL ==> prev < items.Length && items[prev].Option?)
      requires s1 < items.Length && s1 != s0 && items[s1].State?
      modifies items
      ensures InMerge(before, s0, s1, done + rest1, [], [], all) && items[s1] == old(items[s1])
    {
      ghost var was, first := items[..], items[s0].meaning.option;
      SetLink(s0, prev, z1, done);
      RelinkedChain(was, first, items[..], items[s0].meaning.option, done, [], rest1);
      MembersJoin(done, rest1);
      assert done + rest1 + [] == done + rest1;
    }

    /** The loop of yymergeOptionSets over the options of two states. */
    method Interleave(s0: nat, s1: nat, ghost before: seq<Item>, ghost c0: seq<nat>, ghost c1: seq<nat>)
      returns (ghost c: seq<nat>)
      requires InMerge(before, s0, s1, [], c0, c1, Members(c0) + Members(c1))
      requires s1 < items.Length && s1 != s0 && items[s1].State? && items[s1].meaning == First(Head(c1))
      modifies items
      ensures InMerge(before, s0, s1, c, [], [], Members(c0) + Members(c1)) && items[s1] == old(items[s1])
    {
      ghost var all := Members(c0) + Members(c1);
      ghost var done: seq<nat>, rest0, rest1 := [], c0, c1;
      var prev, z1 := NIL, items[s1].meaning.option;
      while true
        invariant InMerge(before, s0, s1, done, rest0, rest1, all) && items[s1] == old(items[s1])
        invariant z1 == Head(rest1) && prev == if done == [] then NIL else done[|done| - 1]
        decreases |rest0| + |rest1|
      {
        var y := Link(s0, prev, done, rest0);
        if z1 == y || z1 == NIL {
          if z1 == y { MergeMeets(items[..], items[s0].meaning.option, done, rest0, rest1); }
          MergeStops(items[..], items[s0].meaning.option, done, rest0);
          return done + rest0;
        } else if y == NIL {
          AppendRest(s0, prev, z1, before, s1, done, rest1, all);
          return done + rest1;
        } else if y < z1 {
          var z := z1;
          z1 := InsertOption(s0, prev, y, z, before, s1, done, rest0, rest1, all);
          done, rest1, prev := done + [z], rest1[1..], z;
        } else {
          MergeAdvances(items[..], items[s0].meaning.option, done, rest0, rest1);
          MembersMove(done, y, rest0);
          done, rest0, prev := done + [y], rest0[1..], y;
        }
      }
    }

    /** The merge of two option chains in yymergeOptionSets: both states get one descending chain
        of exactly the options of the two, which may have run together from the start. */
    method MergeChains(s0: nat, s1: nat, ghost c0: seq<nat>, ghost c1: seq<nat>) returns (ghost c: seq<nat>)
      requires Options(items[..], s0, c0) && Options(items[..], s1, c1) && s0 != s1
      modifies items
      ensures Options(items[..], s0, c) && Options(items[..], s1, c)
      ensures Members(c) == Members(c0) + Members(c1)
      ensures OnlyLinks(old(items[..])[s1 := items[s1]], items[..], s0, Members(c))
      ensures items[s0] == old(items[s0]).(meaning := items[s0].meaning)
      ensures items[s1] == old(items[s1]).(meaning := items[s0].meaning)
    {
      ghost var before := items[..];
      assert [] + c0 == c0 && [] + c1 == c1;
      NotOptions(before, s0, c0);
      NotOptions(before, s1, c1);
      c := Interleave(s0, s1, before, c0, c1);
      assert c + [] == c;
      MergeEnds(before, items[..], s0, s1, c);
      items[s1] := items[s1].(meaning := First(items[s0].meaning.option));
    }

    // one position of the right-hand sides
    method MergePair(a: nat, b: nat, ghost q: Pair)
      requires q.a == a && q.b == b && PairReady(items[..], q)
      modifies items
      ensures PairMerged(old(items[..]), items[..], q)
      ensures forall x: nat :: x < items.Length && x !in Touched(q) ==> items[x] == old(items[x])
    {
      if items[a].resolved {
        items[b] := items[b].(resolved := true, meaning := items[a].meaning);
      } else if items[b].resolved {
        items[a] := items[a].(resolved := true, meaning := items[b].meaning);
      } else {
        ghost var c := MergeChains(a, b, q.c0, q.c1);
        assert MergedInto(items[..], q, c);
      }
    }

    /** yymergeOptionSets over right-hand sides of n states: at every position before the two run
        together, one state's value or the union of the options goes to both. */
    method MergeOptionSets(y0: nat, y1: nat, n: nat, ghost pairs: seq<Pair>)
      requires y0 < items.Length && y1 < items.Length && items[y0].Option? && items[y1].Option?
      requires |pairs| <= n && Apart(pairs) && forall j :: 0 <= j < |pairs| ==> PairReady(items[..], pairs[j])
      requires forall j {:trigger InLine(items[..], y0, y1, pairs, j)} :: 0 <= j < |pairs| ==>
        InLine(items[..], y0, y1, pairs, j)
      requires |pairs| < n ==> LeftAt(items[..], y0, pairs, |pairs|) == RightAt(items[..], y1, pairs, |pairs|)
      modifies items
      ensures MergedUpTo(old(items[..]), items[..], pairs, |pairs|)
    {
      ghost var before := items[..];
      var s0, s1, yyn := items[y0].state, items[y1].state, n;
      ghost var i := 0;
      while yyn > 0 && s0 != s1
        invariant 0 <= i <= |pairs| && yyn == n - i
        invariant i < |pairs| || yyn > 0 ==> s0 == LeftAt(before, y0, pairs, i) && s1 == RightAt(before, y1, pairs, i)
        invariant MergedUpTo(before, items[..], pairs, i)
        decreases yyn
      {
        assert i < |pairs| && InLine(before, y0, y1, pairs, i);
        s0, s1 := MergeAt(s0, s1, before, pairs, i);
        yyn, i := yyn - 1, i + 1;
        assert i < |pairs| ==> InLine(before, y0, y1, pairs, i);
      }
      assert i == |pairs| by { assert i < |pairs| ==> InLine(before, y0, y1, pairs, i); }
    }

    // one turn of the loop: the pair at position i, and the states before it
    method MergeAt(s0: nat, s1: nat, ghost before: seq<Item>, ghost pairs: seq<Pair>, ghost i: nat)
      returns (p0: int, p1: int)
      requires i < |pairs| && pairs[i].a == s0 && pairs[i].b == s1 && Apart(pairs) && PairReady(before, pairs[i])
      requires MergedUpTo(before, items[..], pairs, i)
      modifies items
      ensures MergedUpTo(before, items[..], pairs, i + 1)
      ensures p0 == RhsFrom(before, s0) && p1 == RhsFrom(before, s1)
    {
      ghost var was := items[..];
      StillReady(before, was, pairs, i);
      MergePair(s0, s1, pairs[i]);
      MergeStep(before, was, items[..], pairs, i);
      return items[s0].pred, items[s1].pred;
    }

    // ----- the one stack left after a split --------------------------------------------

    /** The first loop of yycompressStack: r is the lowest state above the split point. */
    method TurnLinks(ghost c: seq<nat>, ghost b: nat) returns (r: int)
      requires Upward(items[..], c) && b < |c| && splitPoint == c[b] && tops.Length > 0 && tops[0] == c[|c| - 1]
      modifies items
      ensures Turned(old(items[..]), items[..], c, b) && r == if b + 1 < |c| then c[b + 1] else NIL
    {
      var p := tops[0];
      r := NIL;
      ghost var before, i: nat := items[..], |c| - 1;
      while p != splitPoint
        invariant b <= i < |c| && p == c[i] && r == if i + 1 < |c| then c[i + 1] else NIL
        invariant Turned(before, items[..], c, i)
      {
        assert UpLink(before, c, i);
        TurnOne(before, items[..], c, i);
        var q := items[p].pred;
        items[p] := items[p].(pred := r);
        r, p, i := p, q, i - 1;
      }
    }

    // one turn of the second loop: the state at r goes to the next free place
    method CopyState(r: nat, ghost before: seq<Item>, ghost c: seq<nat>, ghost b: nat, ghost k: nat) returns (next: int)
      requires Upward(before, c) && b + k + 1 < |c| && r == c[b + 1 + k] && nextFree == c[b] + 1 + k && tops.Length > 0
      requires Moved(before, items[..], c, b, k)
      modifies items, tops, this`nextFree, this`spaceLeft
      ensures Moved(before, items[..], c, b, k + 1)
      ensures next == (if b + k + 2 < |c| then c[b + k + 2] else NIL)
      ensures nextFree == old(nextFree) + 1 && spaceLeft == old(spaceLeft) - 1 && tops[0] == old(nextFree)
    {
      MoveOne(before, items[..], c, b, k);
      ghost var was := items[..];
      items[nextFree] := items[r];
      next := items[r].pred;
      items[nextFree] := items[nextFree].(pred := nextFree - 1);
      assert items[..] == was[nextFree := was[r].(pred := nextFree - 1)];
      tops[0] := nextFree;
      nextFree := nextFree + 1;
      spaceLeft := spaceLeft - 1;
    }

    /** yycompressStack: what is left after a split becomes one stack of neighbouring items
        again. c are its states from bottom to top, the split point in place b; read in the same
        order afterwards they have the same states, positions and values. */
    method CompressStack(ghost c: seq<nat>, ghost b: nat)
      requires tops.Length > 0 && (size == 1 && splitPoint != NIL ==>
                 && Upward(items[..], c) && b < |c| && c[b] == splitPoint
                 && c[|c| - 1] == tops[0] && c[|c| - 1] < nextFree <= items.Length)
      modifies this`nextFree, this`spaceLeft, this`splitPoint, this`lastDeleted, items, tops
      ensures nextFree + spaceLeft == old(nextFree + spaceLeft)
      ensures old(size != 1 || splitPoint == NIL) ==>
                && items[..] == old(items[..]) && tops[..] == old(tops[..])
                && nextFree == old(nextFree) && splitPoint == old(splitPoint)
      ensures old(size == 1 && splitPoint != NIL) ==>
                && splitPoint == NIL && lastDeleted == NIL
                && tops[0] == c[b] + (|c| - b - 1) == nextFree - 1
                && Upward(items[..], Packed(c, b)) && Packed(c, b)[|c| - 1] == tops[0]
                && Kept(old(items[..]), items[..], c, Packed(c, b))
    {
      if size != 1 || splitPoint == NIL { return; }
      ghost var before := items[..];
      AscendGap(c, b, |c| - 1);
      assert UpLink(before, c, b);
      var r := TurnLinks(c, b);
      spaceLeft := spaceLeft + nextFree;
      nextFree := splitPoint + 1;
      spaceLeft := spaceLeft - nextFree;
      splitPoint := NIL;
      lastDeleted := NIL;
      ghost var k := 0;
      TurnedMoves(before, items[..], c, b);
      while r != NIL
        invariant 0 <= k < |c| - b && r == (if b + k + 1 < |c| then c[b + k + 1] else NIL) && nextFree == c[b] + 1 + k
        invariant Moved(before, items[..], c, b, k) && tops[0] == if k == 0 then c[|c| - 1] else nextFree - 1
        invariant nextFree + spaceLeft == old(nextFree + spaceLeft) && splitPoint == NIL && lastDeleted == NIL
        decreases |c| - k
      {
        assert UpLink(before, c, b + k + 1);
        r := CopyState(r, before, c, b, k);
        k := k + 1;
      }
      CompressKeepsStack(before, items[..], c, b);
    }

    // ----- smaller steps ---------------------------------------------------------------

    /** yyaddDeferredAction: the newest option has the largest address, so chains stay
        descending. */
    method AddDeferredAction(k: nat, state: nat, rhs: int, rule: int, lookahead: int, ghost c: seq<nat>)
      requires k < lookaheadNeeds.Length && state < nextFree < items.Length
      requires Options(items[..], state, c) && forall i :: 0 <= i < |c| ==> c[i] < nextFree
      modifies this`nextFree, this`spaceLeft, items
      ensures nextFree == old(nextFree) + 1 && spaceLeft == old(spaceLeft) - 1
      ensures Options(items[..], state, [old(nextFree)] + c)
      ensures forall i :: 0 <= i < |c| + 1 ==> ([old(nextFree)] + c)[i] < nextFree
      ensures items[old(nextFree)] == Option(rule, rhs, if lookaheadNeeds[k] then lookahead else YYEMPTY, Head(c))
      ensures forall x: nat :: x < items.Length && x != state && x != old(nextFree) ==> items[x] == old(items[x])
    {
      ghost var before := items[..];
      var newOption := nextFree;
      nextFree, spaceLeft := nextFree + 1, spaceLeft - 1;
      var seen := if lookaheadNeeds[k] then lookahead else YYEMPTY;
      items[newOption] := Option(rule, rhs, seen, items[state].meaning.option);
      items[state] := items[state].(meaning := First(newOption));
      NotOptions(before, state, c);
      ChainFrame(before, items[..], Head(c), c);
      ghost var d := [newOption] + c;
      forall i | 0 <= i < |d| ensures ChainLink(items[..], d, i) { if i > 0 { assert ChainLink(items[..], c, i - 1); } }
    }

    // stack i becomes stack j, with its mark
    method MoveStack(i: nat, j: nat)
      requires j <= i < tops.Length && i < lookaheadNeeds.Length
      modifies tops, lookaheadNeeds
      ensures tops[..j + 1] == old(tops[..j]) + [old(tops[i])]
      ensures lookaheadNeeds[..j + 1] == old(lookaheadNeeds[..j]) + [old(lookaheadNeeds[i])]
      ensures forall x :: i < x < tops.Length ==> tops[x] == old(tops[x])
      ensures forall x :: i < x < lookaheadNeeds.Length ==> lookaheadNeeds[x] == old(lookaheadNeeds[x])
    {
      tops[j] := tops[i];
      lookaheadNeeds[j] := lookaheadNeeds[i];
    }

    /** yyremoveDeletes: the stacks not deleted move up, and their marks with them. */
    method RemoveDeletes()
      requires size <= tops.Length && size <= lookaheadNeeds.Length
      modifies this`size, tops, lookaheadNeeds
      ensures size == |Live(old(tops[..size]))|
      ensures size <= old(size) <= tops.Length && size <= lookaheadNeeds.Length
      ensures tops[..size] == Live(old(tops[..size]))
      ensures lookaheadNeeds[..size] == LiveMarks(old(tops[..size]), old(lookaheadNeeds[..size]))
    {
      ghost var n, t, m := size, tops[..size], lookaheadNeeds[..size];
      var i, j := 0, 0;
      while j < size
        invariant 0 <= j <= i <= n && size - j == n - i
        invariant tops[..j] == Live(t[..i]) && lookaheadNeeds[..j] == LiveMarks(t[..i], m[..i])
        invariant forall x :: i <= x < n ==> tops[x] == t[x] && lookaheadNeeds[x] == m[x]
        decreases n - i
      {
        LiveStep(t, m, i);
        if tops[i] == NIL {
          size := size - 1;
        } else {
          MoveStack(i, j);
          j := j + 1;
        }
        i := i + 1;
      }
      assert t[..n] == t && m[..n] == m;
    }
  }
}
