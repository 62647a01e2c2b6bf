/** Where the search cursor stands in the entry list, and what its moves mean for the walk. */
module Cursor {
  import opened Linearizability
  import opened Entries
  import opened LinkedEntries
  import opened Search
  import opened Sequences

  /** The list positions taken out for the order `o`: the call and the return of each operation.
      List position `k + 1` is entry `k`.  */
  ghost function TrailOf<I, O>(h: seq<Entry<I, O>>, o: seq<nat>): seq<int> {
    if o == [] then []
    else
      var x := o[|o| - 1];
      TrailOf(h, o[..|o| - 1]) + [Position(h, true, x) + 1] + [Position(h, false, x) + 1]
  }

  ghost predicate OrderOf<I, O>(h: seq<Entry<I, O>>, o: seq<nat>) {
    && WellFormed(h)
    && Distinct(o)
    && forall i | 0 <= i < |o| :: o[i] < |h| / 2
  }

  lemma EntriesOf<I, O>(h: seq<Entry<I, O>>, k: nat, x: nat)
    requires WellFormed(h) && k < |h| && x < |h| / 2
    ensures h[k].id == x <==> k == Position(h, true, x) || k == Position(h, false, x)
  {
  }

  lemma TrailOfLast<I, O>(h: seq<Entry<I, O>>, o: seq<nat>)
    requires OrderOf(h, o) && o != []
    ensures var rest, x := o[..|o| - 1], o[|o| - 1];
      && WellFormed(h) && OrderOf(h, rest) && x < |h| / 2 && x !in rest
      && TrailOf(h, o) == TrailOf(h, rest) + [Position(h, true, x) + 1] + [Position(h, false, x) + 1]
  {
    hide WellFormed, Position;
  }

  lemma {:induction false} TrailContains<I, O>(h: seq<Entry<I, O>>, o: seq<nat>, k: nat)
    requires OrderOf(h, o) && k < |h|
    ensures k + 1 in TrailOf(h, o) <==> h[k].id in o
    decreases |o|
  {
    if o != [] {
      hide *;
      var rest, x := o[..|o| - 1], o[|o| - 1];
      TrailOfLast(h, o);
      TrailContains(h, rest, k);
      EntriesOf(h, k, x);
      InAppendTwo(TrailOf(h, rest), Position(h, true, x) + 1, Position(h, false, x) + 1, k + 1);
      InLastOrRest(o, h[k].id);
    }
  }

  lemma OrderAppend<I, O>(h: seq<Entry<I, O>>, o: seq<nat>, x: nat)
    requires OrderOf(h, o) && x < |h| / 2 && x !in o
    ensures OrderOf(h, o + [x])
    ensures TrailOf(h, o + [x]) == TrailOf(h, o) + [Position(h, true, x) + 1] + [Position(h, false, x) + 1]
  {
    hide WellFormed, Position, OrderOf;
    OrderGrows(h, o, x);
    hide Distinct;
    var longer := o + [x];
    assert longer[..|o|] == o && longer[|o|] == x;
  }

  lemma OrderGrows<I, O>(h: seq<Entry<I, O>>, o: seq<nat>, x: nat)
    requires OrderOf(h, o) && x < |h| / 2 && x !in o
    ensures OrderOf(h, o + [x])
  {
    hide WellFormed;
  }

  lemma InLastOrRest(o: seq<nat>, y: int)
    requires o != []
    ensures y in o <==> y in o[..|o| - 1] || y == o[|o| - 1]
  {
    assert o == o[..|o| - 1] + [o[|o| - 1]];
  }

  lemma NotYetTakenOut<I, O>(h: seq<Entry<I, O>>, o: seq<nat>, x: nat)
    requires OrderOf(h, o) && x < |h| / 2 && x !in o
    ensures var c, r := Position(h, true, x) + 1, Position(h, false, x) + 1;
      0 < c < r < |h| + 1 && c !in TrailOf(h, o) && r !in TrailOf(h, o)
  {
    TrailContains(h, o, Position(h, true, x));
    TrailContains(h, o, Position(h, false, x));
  }

  lemma TrailOfEmpty<I, O>(h: seq<Entry<I, O>>)
    ensures Trail(|h| + 1, TrailOf(h, []))
  {
  }

  lemma {:induction false} TrailIsTrail<I, O>(h: seq<Entry<I, O>>, o: seq<nat>)
    requires OrderOf(h, o)
    ensures Trail(|h| + 1, TrailOf(h, o))
    decreases |o|
  {
    hide *;
    if o == [] {
      TrailOfEmpty(h);
    } else {
      var rest, x := o[..|o| - 1], o[|o| - 1];
      TrailOfLast(h, o);
      NotYetTakenOut(h, rest, x);
      TrailIsTrail(h, rest);
      var c, r, t := Position(h, true, x) + 1, Position(h, false, x) + 1, TrailOf(h, rest);
      TrailAppend(|h| + 1, t, c);
      TrailAppend(|h| + 1, t + [c], r);
    }
  }

  /** The first entry after `p` that is still in the list; `|h|` when there is none. */
  ghost function NextEntry<I, O>(h: seq<Entry<I, O>>, o: seq<nat>, p: int): (q: int)
    requires -1 <= p < |h|
    ensures p < q <= |h|
    ensures q < |h| ==> h[q].id !in o
    ensures forall k | p < k < q :: h[k].id in o
    decreases |h| - p
  {
    if p + 1 == |h| || h[p + 1].id !in o then p + 1 else NextEntry(h, o, p + 1)
  }

  lemma {:induction false} NextInList<I, O>(h: seq<Entry<I, O>>, o: seq<nat>, p: int)
    requires OrderOf(h, o) && -1 <= p < |h|
    ensures Next(Elements(TrailOf(h, o)), |h| + 1, p + 1) == NextEntry(h, o, p) + 1
    decreases |h| - p
  {
    if p + 1 < |h| {
      TrailContains(h, o, p + 1);
      if h[p + 1].id in o {
        NextInList(h, o, p + 1);
      }
    }
  }

  lemma NextLinkInList<I, O>(h: seq<Entry<I, O>>, o: seq<nat>, p: int)
    requires OrderOf(h, o) && -1 <= p < |h| && (p == -1 || h[p].id !in o)
    ensures NextLinks(|h| + 1, TrailOf(h, o))[p + 1] == NextEntry(h, o, p) + 1
  {
    hide OrderOf, TrailOf, NextEntry, Next;
    NextInList(h, o, p);
    TrailIsTrail(h, o);
    if p >= 0 {
      TrailContains(h, o, p);
    }
    LinkOutsideTrail(|h| + 1, TrailOf(h, o), p + 1);
  }

  lemma LinkOutsideTrail(len: nat, trail: seq<int>, p: int)
    requires 0 <= p < len && p !in trail
    ensures NextLinks(len, trail)[p] == Next(Elements(trail), len, p)
  {
    hide Next;
  }

  /** The cursor stands on an entry of the list with no return before it. */
  ghost predicate CursorAt<I, O>(h: seq<Entry<I, O>>, o: seq<nat>, p: int) {
    && 0 <= p < |h|
    && h[p].id !in o
    && forall i | 0 <= i < p && h[i].ReturnEntry? :: h[i].id in o
  }

  /** Every call the cursor reaches can come next. */
  lemma CallIsEnabled<I, O>(h: seq<Entry<I, O>>, o: seq<nat>, p: int)
    requires WellFormed(h) && CursorAt(h, o, p) && h[p].CallEntry?
    ensures Enabled(OpsOf(h), Elements(o), h[p].id) && OpsOf(h)[h[p].id].call == p
  {
  }

  /** When the cursor reaches a return, every operation that could come next was called before. */
  lemma ReturnEndsFrame<I, O>(h: seq<Entry<I, O>>, o: seq<nat>, p: int)
    requires WellFormed(h) && CursorAt(h, o, p) && h[p].ReturnEntry?
    ensures forall x: nat | Enabled(OpsOf(h), Elements(o), x) :: OpsOf(h)[x].call < p
  {
    var ops, r := OpsOf(h), h[p].id;
    forall x: nat | Enabled(ops, Elements(o), x) ensures ops[x].call < p {
      assert h[ops[x].call].CallEntry? && r !in Elements(o);
      assert !Precedes(ops[r], ops[x]);
    }
  }

  lemma FirstEntry<I, O>(h: seq<Entry<I, O>>, o: seq<nat>)
    requires OrderOf(h, o)
    ensures var p := NextEntry(h, o, -1);
      && (p < |h| ==> CursorAt(h, o, p))
      && (p == |h| <==> |o| == |h| / 2)
      && forall x: nat | Enabled(OpsOf(h), Elements(o), x) :: p <= OpsOf(h)[x].call
  {
    var n, ops, p := |h| / 2, OpsOf(h), NextEntry(h, o, -1);
    DistinctCardinality(o);
    SubsetOfRange(Elements(o), n);
    if p == |h| {
      forall id: nat | id < n ensures id in Elements(o) {
        assert h[Position(h, true, id)].id == id;
      }
      SupersetOfRange(Elements(o), n);
    } else {
      assert h[p].id !in Elements(o);
    }
  }

  /** After a call the list goes on, at the latest with the call's own return. */
  lemma NextAfterCall<I, O>(h: seq<Entry<I, O>>, o: seq<nat>, p: int)
    requires OrderOf(h, o)
    requires CursorAt(h, o, p) && h[p].CallEntry?
    ensures CursorAt(h, o, NextEntry(h, o, p))
    ensures forall x: nat | Enabled(OpsOf(h), Elements(o), x) ::
      x == h[p].id || OpsOf(h)[x].call < p || NextEntry(h, o, p) <= OpsOf(h)[x].call
  {
    var r := Position(h, false, h[p].id);
    assert p < r < |h| && h[r].id !in o;
    NextOnTheWay(h, o, p, r);
    hide WellFormed, Position;
    forall x: nat | Enabled(OpsOf(h), Elements(o), x)
      ensures x == h[p].id || OpsOf(h)[x].call < p || NextEntry(h, o, p) <= OpsOf(h)[x].call
    {
      CallOnTheWay(h, o, p, x);
    }
  }

  lemma NextOnTheWay<I, O>(h: seq<Entry<I, O>>, o: seq<nat>, p: int, r: int)
    requires CursorAt(h, o, p) && h[p].CallEntry? && p < r < |h| && h[r].id !in o
    ensures CursorAt(h, o, NextEntry(h, o, p))
  {
  }

  lemma CallOnTheWay<I, O>(h: seq<Entry<I, O>>, o: seq<nat>, p: int, x: nat)
    requires WellFormed(h) && 0 <= p < |h| && h[p].CallEntry? && Enabled(OpsOf(h), Elements(o), x)
    ensures x == h[p].id || OpsOf(h)[x].call < p || NextEntry(h, o, p) <= OpsOf(h)[x].call
  {
    hide WellFormed, Position, OpsOf, Enabled, Elements;
    EnabledIsOut(OpsOf(h), o, x);
    CallAt(h, x);
    var c, q := OpsOf(h)[x].call, NextEntry(h, o, p);
    if p < c < q {
      assert false;
    }
  }

  lemma EnabledIsOut<I, O>(ops: seq<Operation<I, O>>, o: seq<nat>, x: nat)
    requires Enabled(ops, Elements(o), x)
    ensures x < |ops| && x !in o
  {
  }

  lemma CallAt<I, O>(h: seq<Entry<I, O>>, x: nat)
    requires WellFormed(h) && x < |h| / 2
    ensures var c := OpsOf(h)[x].call; 0 <= c < |h| && h[c].id == x
  {
  }

  lemma OpsHavePositions<I, O>(h: seq<Entry<I, O>>)
    requires WellFormed(h)
    ensures DistinctCalls(OpsOf(h)) && TimesOrdered(OpsOf(h))
  {
    var ops := OpsOf(h);
    forall x, y | 0 <= x < |ops| && 0 <= y < |ops| && ops[x].call == ops[y].call ensures x == y {
      assert h[ops[x].call].id == x && h[ops[y].call].id == y;
    }
  }

  lemma OrderOnPath<S, I, O>(m: Model<S, I, O>, h: seq<Entry<I, O>>, o: seq<nat>, stack: seq<Config<S>>)
    requires WellFormed(h) && Path(m, OpsOf(h), o, stack)
    ensures OrderOf(h, o) && |o| <= |h| / 2
    ensures stack[|o|].done == Elements(o) && |stack[|o|].done| == |o|
  {
    PathIsPartial(m, OpsOf(h), o, stack);
    PartialIsDistinct(m, OpsOf(h), o);
  }

  /** The invariant of the search loop, in terms of entries.  `p` is the cursor. */
  ghost predicate SearchInv<S(!new), I, O>(
    m: Model<S, I, O>, h: seq<Entry<I, O>>, cache: set<Config<S>>, o: seq<nat>, stack: seq<Config<S>>, p: int)
    requires WellFormed(h)
  {
    && WalkInv(m, OpsOf(h), cache, o, stack, p)
    && (forall c | c in cache :: 0 < |c.done| && (|c.done| < |h| / 2 || |o| == |h| / 2))
    && if |o| == |h| / 2 then p == |h| else CursorAt(h, o, p)
  }

  lemma StartSearch<S(!new), I, O>(m: Model<S, I, O>, h: seq<Entry<I, O>>)
    requires WellFormed(h)
    ensures h == [] ==> SearchInv(m, h, {}, [], [Config({}, m.init)], 0)
    ensures h != [] ==> SearchInv(m, h, {}, [], [Config({}, m.init)], NextEntry(h, [], -1))
  {
    if h != [] {
      FirstEntry(h, []);
      assert Elements<nat>([]) == {};
    }
  }

  lemma WalkHasPath<S(!new), I, O>(
    m: Model<S, I, O>, ops: seq<Operation<I, O>>, cache: set<Config<S>>, o: seq<nat>, stack: seq<Config<S>>, p: int)
    requires WalkInv(m, ops, cache, o, stack, p)
    ensures Path(m, ops, o, stack) && |stack| == |o| + 1
  {
  }

  lemma PathGrows<S, I, O>(
    m: Model<S, I, O>, h: seq<Entry<I, O>>, o: seq<nat>, stack: seq<Config<S>>, p: int, x: nat)
    requires WellFormed(h) && Path(m, OpsOf(h), o, stack)
    requires CursorAt(h, o, p) && h[p].CallEntry? && x == h[p].id && Accepts(m, OpsOf(h), stack[|o|], x)
    ensures x < |OpsOf(h)| && OpsOf(h)[x].call == p && Enabled(OpsOf(h), stack[|o|].done, x)
    ensures OrderOf(h, o + [x])
    ensures var c, q := Successor(m, OpsOf(h), stack[|o|], x), NextEntry(h, o + [x], -1);
      && |c.done| == |o| + 1 <= |h| / 2
      && (if |o| + 1 == |h| / 2 then q == |h| else CursorAt(h, o + [x], q))
      && forall y: nat | Enabled(OpsOf(h), c.done, y) :: q <= OpsOf(h)[y].call
  {
    OrderOnPath(m, h, o, stack);
    CallIsEnabled(h, o, p);
    PathAppend(m, OpsOf(h), o, stack, x);
    FirstEntry(h, o + [x]);
  }

  /** The cursor is on an accepted call that leads to an uncached configuration: order it next and
      start over at the front of the list.  */
  lemma PushSearch<S(!new), I(!new), O(!new)>(
    m: Model<S, I, O>, h: seq<Entry<I, O>>, cache: set<Config<S>>, o: seq<nat>, stack: seq<Config<S>>, p: int, x: nat)
    requires EqualRespectsStep(m) && WellFormed(h) && SearchInv(m, h, cache, o, stack, p)
    requires |o| < |h| / 2 && h[p].CallEntry? && x == h[p].id && Accepts(m, OpsOf(h), stack[|o|], x)
    requires !Covered(m, cache, Successor(m, OpsOf(h), stack[|o|], x))
    ensures var c := Successor(m, OpsOf(h), stack[|o|], x);
      && c !in cache
      && OrderOf(h, o + [x])
      && SearchInv(m, h, cache + {c}, o + [x], stack + [c], NextEntry(h, o + [x], -1))
  {
    hide WalkInv, Path, WellFormed, CursorAt, Enabled, OrderOf;
    WalkHasPath(m, OpsOf(h), cache, o, stack, p);
    PathGrows(m, h, o, stack, p, x);
    var c := Successor(m, OpsOf(h), stack[|o|], x);
    if c in cache {
      CachedIsCovered(m, cache, c);
    }
    Push(m, OpsOf(h), cache, o, stack, x, NextEntry(h, o + [x], -1));
  }

  /** The cursor is on a call that the model rejects or whose configuration is cached: move on. */
  lemma SkipSearch<S(!new), I, O>(
    m: Model<S, I, O>, h: seq<Entry<I, O>>, cache: set<Config<S>>, o: seq<nat>, stack: seq<Config<S>>, p: int)
    requires WellFormed(h) && SearchInv(m, h, cache, o, stack, p)
    requires |o| < |h| / 2 && h[p].CallEntry?
    requires Accepts(m, OpsOf(h), stack[|o|], h[p].id) ==>
      Covered(m, cache, Successor(m, OpsOf(h), stack[|o|], h[p].id))
    ensures SearchInv(m, h, cache, o, stack, NextEntry(h, o, p))
  {
    OrderOnPath(m, h, o, stack);
    NextAfterCall(h, o, p);
    Skip(m, OpsOf(h), cache, o, stack, p, NextEntry(h, o, p));
  }

  /** Before the call of the operation taken back there is no return in the list. */
  lemma PathShrinks<S, I, O>(
    m: Model<S, I, O>, h: seq<Entry<I, O>>, o: seq<nat>, stack: seq<Config<S>>)
    requires WellFormed(h) && Path(m, OpsOf(h), o, stack) && o != []
    ensures var k := |o| - 1;
      && Path(m, OpsOf(h), o[..k], stack[..|o|])
      && OrderOf(h, o[..k])
      && stack[k].done == Elements(o[..k]) && |stack| == |o| + 1
      && CursorAt(h, o[..k], Position(h, true, o[k])) && Position(h, true, o[k]) < |h|
      && h[Position(h, true, o[k])].CallEntry? && h[Position(h, true, o[k])].id == o[k]
  {
    var k := |o| - 1;
    var o', x := o[..k], o[k];
    PathPrefix(m, OpsOf(h), o, stack, k);
    OrderOnPath(m, h, o', stack[..|o|]);
    assert Enabled(OpsOf(h), Elements(o'), x);
    forall i | 0 <= i < Position(h, true, x) && h[i].ReturnEntry? ensures h[i].id in o' {
      assert Precedes(OpsOf(h)[h[i].id], OpsOf(h)[x]);
    }
  }

  lemma MoveOn<S(!new), I, O>(
    m: Model<S, I, O>, h: seq<Entry<I, O>>, cache: set<Config<S>>, o: seq<nat>, stack: seq<Config<S>>, q: int)
    requires OrderOf(h, o) && WellFormed(h) && CursorAt(h, o, q) && 0 <= q < |h| && h[q].CallEntry?
    requires WalkInv(m, OpsOf(h), cache, o, stack, q + 1) && |stack| == |o| + 1 && stack[|o|].done == Elements(o)
    ensures WalkInv(m, OpsOf(h), cache, o, stack, NextEntry(h, o, q)) && CursorAt(h, o, NextEntry(h, o, q))
  {
    hide *;
    CallIsEnabled(h, o, q);
    NextAfterCall(h, o, q);
    Skip(m, OpsOf(h), cache, o, stack, q + 1, NextEntry(h, o, q));
  }

  /** The cursor is on a return: take back the last operation and move on past its call. */
  lemma PopSearch<S(!new), I(!new), O(!new)>(
    m: Model<S, I, O>, h: seq<Entry<I, O>>, cache: set<Config<S>>, o: seq<nat>, stack: seq<Config<S>>, p: int)
    requires EqualRespectsStep(m) && WellFormed(h) && SearchInv(m, h, cache, o, stack, p)
    requires 0 < |o| < |h| / 2 && h[p].ReturnEntry?
    ensures var k := |o| - 1;
      && OrderOf(h, o[..k])
      && SearchInv(m, h, cache, o[..k], stack[..|o|], NextEntry(h, o[..k], Position(h, true, o[k])))
  {
    hide WalkInv, Path, OrderOf, WellFormed, CursorAt, EqualRespectsStep;
    var ops, k := OpsOf(h), |o| - 1;
    WalkHasPath(m, ops, cache, o, stack, p);
    OrderOnPath(m, h, o, stack);
    ReturnEndsFrame(h, o, p);
    OpsHavePositions(h);
    Pop(m, ops, cache, o, stack, p);
    PathShrinks(m, h, o, stack);
    MoveOn(m, h, cache, o[..k], stack[..|o|], Position(h, true, o[k]));
  }
}
